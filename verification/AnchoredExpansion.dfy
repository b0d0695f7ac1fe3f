/**
 What anchoring means for the expansion that follows: the references, the
 directory's name and the place the value ends up at.
 */
module AnchoredExpansion {
  import opened PathText
  import opened Expansion
  import opened PathAnchoring

  // ---------------------------------------------------------------- components of raw text

  /** Tokens between slashes, without a slash outside a brace. */
  predicate IsPiece(q: seq<Token>) {
    SLASH !in q && forall t :: t in q && t.Bare? ==> '/' !in t.name
  }

  lemma KeptHead(a: string, b: string)
    requires '/' !in a && a != "" && a != "."
    ensures IsKept('.', Split('/', a + b)[0])
  {
    SplitBehind('/', a, b);
    var head := a + Split('/', b)[0];
    assert head[0] == a[0] && (|a| > 1 ==> |head| > 1);
  }

  lemma HeadOfPiece(q: seq<Token>)
    requires IsPiece(q) && IsKept(DOT, q)
    ensures IsKept('.', Split('/', Raw(q))[0])
  {
    assert q[0] in q;
    var text := Raw(q);
    HeadOfTail(q);
    if q[0] == DOT {
      assert q[1] in q;
      HeadOfTail(q[1..]);
      TwoHeads(text);
    } else {
      assert text[0] != '.';
      OneHead(text);
    }
  }

  lemma OneHead(text: string)
    requires text != "" && text[0] != '/' && text[0] != '.'
    ensures IsKept('.', Split('/', text)[0])
  {
    assert text == [text[0]] + text[1..];
    KeptHead([text[0]], text[1..]);
  }

  lemma TwoHeads(text: string)
    requires |text| > 1 && text[0] != '/' && text[1] != '/'
    ensures IsKept('.', Split('/', text)[0])
  {
    assert text == text[..2] + text[2..];
    KeptHead(text[..2], text[2..]);
  }

  lemma HeadOfTail(q: seq<Token>)
    requires q != [] && q[0] != SLASH
    ensures Raw(q) != "" && Raw(q)[0] == q[0].Raw()[0] != '/'
    ensures q[0].Lit? ==> Raw(q)[1..] == Raw(q[1..])
  {
    assert Raw(q) == q[0].Raw() + Raw(q[1..]) && q[0].Raw() != "";
  }

  lemma NamePieces(name: string)
    ensures var ps := Split('/', name);
            forall k | 0 <= k < |ps| :: '/' !in ps[k]
  {
    PiecesHaveNoSeparator('/', name);
  }

  /** The components around and inside a braced name with slashes. */
  lemma ComponentsAroundName(pre: string, name: string, post: string)
    requires '/' !in pre && |Split('/', name)| > 1
    ensures var ps := Split('/', name);
            && Components(pre + "${" + name + "}" + post) ==
               [pre + "${" + ps[0]] + Kept('.', ps[1..|ps| - 1]) + Components(ps[|ps| - 1] + "}" + post)
            && Split('/', pre + "${" + Squeeze(name) + "}" + post) ==
               [pre + "${" + ps[0]] + Kept('.', ps[1..|ps| - 1]) + Split('/', ps[|ps| - 1] + "}" + post)
  {
    var ps := Split('/', name);
    NamePieces(name);
    NameParts(name);
    var head, middle, tail := pre + "${" + ps[0], ps[1..|ps| - 1], ps[|ps| - 1] + "}" + post;
    KeptOfKept('.', middle);
    assert forall k | 0 <= k < |middle| :: '/' !in middle[k];
    SplitAround(head, middle, tail);
    forall k | 0 <= k < |Kept('.', middle)|
      ensures '/' !in Kept('.', middle)[k]
    {
      assert Kept('.', middle)[k] in Kept('.', middle);
    }
    SplitAround(head, Kept('.', middle), tail);
    RegroupName(pre, ps[0], Each('/', middle), ps[|ps| - 1], post);
    RegroupName(pre, ps[0], Each('/', Kept('.', middle)), ps[|ps| - 1], post);
    KeptAppend('.', [head] + middle, Split('/', tail));
    KeptAppend('.', [head], middle);
    HeadIsKept(pre, ps[0]);
  }

  lemma HeadIsKept(pre: string, first: string)
    ensures Kept('.', [pre + "${" + first]) == [pre + "${" + first]
  {
    var head := pre + "${" + first;
    assert head != "" && head[|pre|] == '$';
    assert Kept('.', [head]) == [head];
  }

  lemma RegroupName(pre: string, first: string, middle: string, last: string, post: string)
    ensures pre + "${" + (first + middle + "/" + last) + "}" + post ==
            (pre + "${" + first) + middle + "/" + (last + "}" + post)
  {
  }

  /** Inside a piece, dropping components only squeezes braced names. */
  lemma {:induction false} ComponentsOfPiece(pre: string, q: seq<Token>)
    requires '/' !in pre && IsPiece(q)
    requires IsKept('.', Split('/', pre + Raw(q))[0])
    ensures Components(pre + Raw(q)) == Split('/', pre + Raw(SqueezeAll(q)))
    decreases |q|, 0
  {
    if q == [] {
      SplitWhole('/', pre);
      assert pre + Raw(q) == pre && pre + Raw(SqueezeAll(q)) == pre;
      assert Kept('.', [pre]) == [pre];
    } else {
      var t := q[0];
      assert t in q && q == [t] + q[1..];
      if t.Braced? && |Split('/', t.name)| > 1 {
        ComponentsOfSlashedName(pre, t.name, q[1..]);
      } else {
        TokenWithoutSlash(t);
        MoveToken(pre, q);
        ComponentsOfPiece(pre + t.Raw(), q[1..]);
      }
    }
  }

  lemma MoveToken(pre: string, q: seq<Token>)
    requires q != [] && SqueezeToken(q[0]) == q[0]
    ensures pre + Raw(q) == pre + q[0].Raw() + Raw(q[1..])
    ensures pre + Raw(SqueezeAll(q)) == pre + q[0].Raw() + Raw(SqueezeAll(q[1..]))
  {
    var raw, rest, squeezed := q[0].Raw(), Raw(q[1..]), Raw(SqueezeAll(q[1..]));
    assert SqueezeAll(q)[1..] == SqueezeAll(q[1..]) && SqueezeAll(q)[0] == q[0];
    Assoc(pre, raw, rest);
    Assoc(pre, raw, squeezed);
    assert Raw(q) == raw + rest && Raw(SqueezeAll(q)) == raw + squeezed;
  }

  lemma MoveBraced(pre: string, name: string, q: seq<Token>)
    ensures pre + Raw([Braced(name)] + q) == pre + "${" + name + "}" + Raw(q)
    ensures pre + Raw(SqueezeAll([Braced(name)] + q)) == pre + "${" + Squeeze(name) + "}" + Raw(SqueezeAll(q))
  {
    var whole := [Braced(name)] + q;
    assert whole[1..] == q && SqueezeAll(whole)[1..] == SqueezeAll(q);
    assert Raw(whole) == Braced(name).Raw() + Raw(q);
    assert Raw(SqueezeAll(whole)) == Braced(Squeeze(name)).Raw() + Raw(SqueezeAll(q));
    RegroupBraced(pre, name, Raw(q));
    RegroupBraced(pre, Squeeze(name), Raw(SqueezeAll(q)));
  }

  lemma RegroupBraced(pre: string, name: string, post: string)
    ensures pre + (Braced(name).Raw() + post) == pre + "${" + name + "}" + post
  {
  }

  lemma Assoc(a: string, b: string, c: string)
    ensures a + (b + c) == a + b + c
  {
  }

  lemma ComponentsOfSlashedName(pre: string, name: string, q: seq<Token>)
    requires '/' !in pre && IsPiece(q) && |Split('/', name)| > 1
    ensures Components(pre + Raw([Braced(name)] + q)) == Split('/', pre + Raw(SqueezeAll([Braced(name)] + q)))
    decreases |q|, 1
  {
    var ps := Split('/', name);
    var last := ps[|ps| - 1] + "}";
    var rest, squeezed := Raw(q), Raw(SqueezeAll(q));
    NamePieces(name);
    ComponentsAroundName(pre, name, rest);
    ComponentsAroundName(pre, name, squeezed);
    SplitBehind('/', last, rest);
    assert Split('/', last + rest)[0][|last| - 1] == '}';
    ComponentsOfPiece(last, q);
    MoveBraced(pre, name, q);
  }

  lemma TokenWithoutSlash(t: Token)
    requires t != SLASH && (t.Bare? ==> '/' !in t.name) && (t.Braced? ==> |Split('/', t.name)| == 1)
    ensures '/' !in t.Raw() && SqueezeToken(t) == t
  {
    if t.Braced? {
      EachSplit('/', t.name);
      PiecesHaveNoSeparator('/', t.name);
      assert Each('/', Split('/', t.name)) == "/" + Split('/', t.name)[0];
      assert ("/" + t.name)[1..] == t.name && ("/" + Split('/', t.name)[0])[1..] == Split('/', t.name)[0];
    }
  }

  function SqueezeEach(pieces: seq<seq<Token>>): seq<seq<Token>> {
    if pieces == [] then [] else [SqueezeAll(pieces[0])] + SqueezeEach(pieces[1..])
  }

  lemma {:induction false} SqueezeEachAppend(a: seq<seq<Token>>, b: seq<seq<Token>>)
    ensures SqueezeEach(a + b) == SqueezeEach(a) + SqueezeEach(b)
  {
    if a == [] {
      assert a + b == b;
    } else {
      assert (a + b)[1..] == a[1..] + b;
      SqueezeEachAppend(a[1..], b);
    }
  }

  lemma {:induction false} SplitSqueezed(ts: seq<Token>)
    ensures Split(SLASH, SqueezeAll(ts)) == SqueezeEach(Split(SLASH, ts))
  {
    if ts != [] {
      SplitSqueezed(ts[1..]);
      var rest := Split(SLASH, ts[1..]);
      assert SqueezeAll(ts)[1..] == SqueezeAll(ts[1..]);
      if ts[0] == SLASH {
        assert ([[]] + rest)[1..] == rest;
      } else {
        assert ([[ts[0]] + rest[0]] + rest[1..])[1..] == rest[1..];
        assert ([ts[0]] + rest[0])[1..] == rest[0];
      }
    }
  }

  lemma ComponentsOfLast(p: seq<Token>)
    requires IsPiece(p)
    ensures Each('/', Components(Raw(p))) == Raw(Each(SLASH, Kept(DOT, [SqueezeAll(p)])))
  {
    var s := SqueezeAll(p);
    assert Kept(DOT, [s]) == if IsKept(DOT, s) then [s] else [];
    if p == [] || p == [DOT] {
      assert Raw([DOT]) == "." by { assert [DOT][1..] == []; }
      assert SqueezeAll([DOT]) == [DOT];
      SplitWholeDot();
    } else {
      HeadOfPiece(p);
      assert "" + Raw(p) == Raw(p) && "" + Raw(s) == Raw(s);
      ComponentsOfPiece("", p);
      EachSplit('/', Raw(s));
      assert Each(SLASH, [s]) == [SLASH] + s;
      assert ([SLASH] + s)[1..] == s;
    }
  }

  lemma SplitWholeDot()
    ensures Components("") == [] && Components(".") == []
  {
    SplitWhole('/', ".");
    assert Kept('.', ["."]) == Kept('.', []);
    assert Kept('.', [""]) == Kept('.', []);
  }

  predicate ArePieces(pieces: seq<seq<Token>>) {
    forall k | 0 <= k < |pieces| :: IsPiece(pieces[k])
  }

  /** The components of a value's text, put behind slashes again, are the text of
      its kept and squeezed pieces. */
  lemma {:induction false} ComponentsOfPieces(pieces: seq<seq<Token>>)
    requires ArePieces(pieces)
    ensures Each('/', Components(Raw(Each(SLASH, pieces)))) == Raw(Each(SLASH, Kept(DOT, SqueezeEach(pieces))))
  {
    if pieces == [] {
      SplitWholeDot();
    } else {
      var n := |pieces| - 1;
      var front, last := pieces[..n], pieces[n];
      assert pieces == front + [last];
      ComponentsOfPieces(front);
      TextOfLastPiece(front, last);
      ComponentsAt(Raw(Each(SLASH, front)), Raw(last));
      EachAppend('/', Components(Raw(Each(SLASH, front))), Components(Raw(last)));
      ComponentsOfLast(last);
      TidyOfLastPiece(front, last);
    }
  }

  lemma TextOfLastPiece(front: seq<seq<Token>>, last: seq<Token>)
    ensures Raw(Each(SLASH, front + [last])) == Raw(Each(SLASH, front)) + "/" + Raw(last)
  {
    EachAppend(SLASH, front, [last]);
    assert Each(SLASH, [last]) == [SLASH] + last;
    RawAppend(Each(SLASH, front), [SLASH] + last);
    RawCons(SLASH, last);
    Assoc(Raw(Each(SLASH, front)), "/", Raw(last));
  }

  lemma TidyOfLastPiece(front: seq<seq<Token>>, last: seq<Token>)
    ensures Raw(Each(SLASH, Kept(DOT, SqueezeEach(front + [last])))) ==
            Raw(Each(SLASH, Kept(DOT, SqueezeEach(front)))) + Raw(Each(SLASH, Kept(DOT, [SqueezeAll(last)])))
  {
    SqueezeEachAppend(front, [last]);
    assert SqueezeEach([last]) == [SqueezeAll(last)];
    KeptAppend(DOT, SqueezeEach(front), SqueezeEach([last]));
    EachAppend(SLASH, Kept(DOT, SqueezeEach(front)), Kept(DOT, [SqueezeAll(last)]));
    RawAppend(Each(SLASH, Kept(DOT, SqueezeEach(front))), Each(SLASH, Kept(DOT, [SqueezeAll(last)])));
  }

  lemma {:induction false} PiecesOfTokens(ts: seq<Token>)
    requires forall t :: t in ts && t.Bare? ==> '/' !in t.name
    ensures ArePieces(Split(SLASH, ts))
  {
    if ts != [] {
      PiecesOfTokens(ts[1..]);
      var rest := Split(SLASH, ts[1..]);
      assert ts[0] in ts;
      if ts[0] != SLASH {
        assert IsPiece(rest[0]);
        assert IsPiece([ts[0]] + rest[0]);
      }
    }
  }

  lemma {:induction false} BareNamesHaveNoSlash(ts: seq<Token>)
    requires WellFormed(ts)
    ensures forall t :: t in ts && t.Bare? ==> '/' !in t.name
  {
    if ts != [] {
      BareNamesHaveNoSlash(ts[1..]);
      assert ts == [ts[0]] + ts[1..];
    }
  }

  /** A value's tokens after anchoring. */
  function Tidy(path: string): seq<Token> {
    Each(SLASH, Kept(DOT, Split(SLASH, SqueezeAll(Parse(path)))))
  }

  lemma ComponentsOfValue(path: string)
    ensures Each('/', Components(path)) == Raw(Tidy(path))
  {
    var ts := Parse(path);
    ParseIsFaithful(path);
    BareNamesHaveNoSlash(ts);
    PiecesOfTokens(ts);
    ComponentsOfPieces(Split(SLASH, ts));
    EachSplit(SLASH, ts);
    LeadingSlash(ts);
    SplitSqueezed(ts);
  }

  lemma LeadingSlash(ts: seq<Token>)
    ensures Components(Raw([SLASH] + ts)) == Components(Raw(ts))
  {
    assert ([SLASH] + ts)[1..] == ts;
    assert Raw([SLASH] + ts) == "" + "/" + Raw(ts);
    ComponentsAt("", Raw(ts));
    SplitWholeDot();
  }

  // ---------------------------------------------------------------- what is read back

  lemma SqueezeNamesNoBrace(name: string)
    requires '}' !in name
    ensures '}' !in Squeeze(name)
  {
    var ps := Split('/', name);
    if |ps| > 1 {
      NameParts(name);
      forall k | 0 <= k < |ps|
        ensures '}' !in ps[k]
      {
        PieceCharacters(name, k);
      }
      var middle := ps[1..|ps| - 1];
      KeptOfKept('.', middle);
      CharactersOfEach(Kept('.', middle), '}');
    }
  }

  lemma {:induction false} PieceCharacters(s: string, k: nat)
    requires k < |Split('/', s)|
    ensures forall c :: c in Split('/', s)[k] ==> c in s
  {
    if s != "" {
      var rest := Split('/', s[1..]);
      assert s == [s[0]] + s[1..];
      if s[0] == '/' {
        if k > 0 { PieceCharacters(s[1..], k - 1); }
      } else {
        PieceCharacters(s[1..], k);
      }
    }
  }

  lemma {:induction false} CharactersOfEach(pieces: seq<string>, c: char)
    requires c != '/' && forall p :: p in pieces ==> c !in p
    ensures c !in Each('/', pieces)
  {
    if pieces != [] {
      assert pieces[0] in pieces;
      CharactersOfEach(pieces[1..], c);
    }
  }

  /** The first character, if any, and whether there is a closing brace: all that
      reading a token depends on. */
  predicate ReadsAlike(a: string, b: string) {
    && (a == "" <==> b == "")
    && (a != "" ==> a[0] == b[0])
    && ('}' in a <==> '}' in b)
  }

  lemma {:induction false} SqueezedReadsAlike(ts: seq<Token>)
    requires WellFormed(ts)
    ensures WellFormed(SqueezeAll(ts)) && ReadsAlike(Raw(ts), Raw(SqueezeAll(ts)))
  {
    if ts != [] {
      SqueezedReadsAlike(ts[1..]);
      assert SqueezeAll(ts)[1..] == SqueezeAll(ts[1..]);
      if ts[0].Braced? {
        SqueezeNamesNoBrace(ts[0].name);
      }
      assert ReadsAlike(ts[0].Raw(), SqueezeToken(ts[0]).Raw());
    }
  }

  /** `tail` may stand where `old` stood. */
  predicate CanFollow(tail: seq<Token>, before: seq<Token>) {
    && (tail == [] || tail[0] == SLASH)
    && (before == [] || before[0] == SLASH)
    && ('}' in Raw(tail) ==> '}' in Raw(before))
  }

  lemma {:induction false} SwapTail(q: seq<Token>, before: seq<Token>, tail: seq<Token>)
    requires WellFormed(q + before) && WellFormed(tail) && CanFollow(tail, before)
    ensures WellFormed(q + tail)
    decreases |q|
  {
    if q == [] {
      assert q + tail == tail;
    } else {
      HeadAndRest(q, before);
      HeadAndRest(q, tail);
      SwapTail(q[1..], before, tail);
      FirstOfAppend(q[1..], before, tail);
      CloseCarriesOver(q[1..], before, tail);
      FitsAlike(q[0], Raw(q[1..] + before), Raw(q[1..] + tail));
    }
  }

  lemma HeadAndRest(q: seq<Token>, tail: seq<Token>)
    requires q != []
    ensures WellFormed(q + tail) <==> Fits(q[0], Raw(q[1..] + tail)) && WellFormed(q[1..] + tail)
  {
    assert (q + tail)[1..] == q[1..] + tail;
  }

  lemma CloseCarriesOver(q: seq<Token>, before: seq<Token>, tail: seq<Token>)
    requires CanFollow(tail, before)
    ensures '}' in Raw(q + tail) ==> '}' in Raw(q + before)
  {
    RawAppend(q, before);
    RawAppend(q, tail);
  }

  lemma FitsAlike(t: Token, a: string, b: string)
    requires Fits(t, a) && ('}' in b ==> '}' in a)
    requires b == "" || b[0] == '/' || (a != "" && a[0] == b[0])
    ensures Fits(t, b)
  {
  }

  lemma FirstOfAppend(q: seq<Token>, before: seq<Token>, tail: seq<Token>)
    requires CanFollow(tail, before)
    ensures var a, b := Raw(q + before), Raw(q + tail);
            (a != "" && b != "" && a[0] == b[0]) || (q == [] && (a == "" || a[0] == '/') && (b == "" || b[0] == '/'))
  {
    if q == [] {
      assert q + before == before && q + tail == tail;
    } else {
      assert (q + before)[0] == q[0] && (q + tail)[0] == q[0] && q[0].Raw() != "";
    }
  }

  /** Dropping pieces leaves the rest readable as it was. */
  lemma {:induction false} KeptIsWellFormed(pieces: seq<seq<Token>>)
    requires WellFormed(Each(SLASH, pieces))
    ensures var kept := Each(SLASH, Kept(DOT, pieces));
            WellFormed(kept) && CanFollow(kept, Each(SLASH, pieces))
  {
    if pieces != [] {
      var q := [SLASH] + pieces[0];
      var rest, tail := Each(SLASH, pieces[1..]), Each(SLASH, Kept(DOT, pieces[1..]));
      assert Each(SLASH, pieces) == q + rest;
      WellFormedTail(q, rest);
      KeptIsWellFormed(pieces[1..]);
      RawAppend(q, rest);
      if IsKept(DOT, pieces[0]) {
        SwapTail(q, rest, tail);
        CloseCarriesOver(q, rest, tail);
        assert ([pieces[0]] + Kept(DOT, pieces[1..]))[1..] == Kept(DOT, pieces[1..]);
        assert Each(SLASH, Kept(DOT, pieces)) == q + tail;
      } else {
        assert Kept(DOT, pieces) == Kept(DOT, pieces[1..]);
      }
    }
  }

  lemma {:induction false} WellFormedTail(a: seq<Token>, b: seq<Token>)
    requires WellFormed(a + b)
    ensures WellFormed(b)
  {
    if a == [] {
      assert a + b == b;
    } else {
      assert (a + b)[1..] == a[1..] + b;
      WellFormedTail(a[1..], b);
    }
  }

  lemma TidyIsWellFormed(path: string)
    ensures WellFormed(Tidy(path))
  {
    var ts := Parse(path);
    ParseIsFaithful(path);
    SqueezedReadsAlike(ts);
    EachSplit(SLASH, SqueezeAll(ts));
    assert ([SLASH] + SqueezeAll(ts))[1..] == SqueezeAll(ts);
    KeptIsWellFormed(Split(SLASH, SqueezeAll(ts)));
  }

  /** An escaped name, as tokens. */
  function EscapeTokens(s: string): seq<Token> {
    if s == "" then [] else [if s[0] == '$' then Dollar else Lit(s[0])] + EscapeTokens(s[1..])
  }

  /** No text can change how an escaped name in front of it is read. */
  lemma {:induction false} EscapedIsWellFormed(s: string, ts: seq<Token>)
    requires WellFormed(ts)
    ensures WellFormed(EscapeTokens(s) + ts)
  {
    if s == "" {
      assert EscapeTokens(s) + ts == ts;
    } else {
      EscapedIsWellFormed(s[1..], ts);
      assert EscapeTokens(s)[1..] == EscapeTokens(s[1..]);
      HeadAndRest(EscapeTokens(s), ts);
    }
  }

  lemma {:induction false} RawOfEscaped(s: string)
    ensures Raw(EscapeTokens(s)) == Escape(s)
  {
    if s != "" {
      RawOfEscaped(s[1..]);
      RawCons(if s[0] == '$' then Dollar else Lit(s[0]), EscapeTokens(s[1..]));
    }
  }

  lemma EscapedReadsAsItself(s: string, ts: seq<Token>)
    requires WellFormed(ts)
    ensures WellFormed(EscapeTokens(s) + ts)
    ensures Raw(EscapeTokens(s) + ts) == Escape(s) + Raw(ts)
  {
    EscapedIsWellFormed(s, ts);
    RawOfEscaped(s);
    RawAppend(EscapeTokens(s), ts);
  }

  lemma {:induction false} EscapedExpandsToItself(s: string, env: Env)
    ensures Text(EscapeTokens(s), env) == s && References(EscapeTokens(s)) == []
  {
    if s != "" {
      var t := if s[0] == '$' then Dollar else Lit(s[0]);
      EscapedExpandsToItself(s[1..], env);
      TextCons(t, EscapeTokens(s[1..]), env);
      ReferencesCons(t, EscapeTokens(s[1..]));
      assert s == [s[0]] + s[1..];
    }
  }
}
