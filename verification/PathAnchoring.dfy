/**
 Putting relative path settings under the directory they were written for,
 before their `$` references are expanded.
 */
module PathAnchoring {
  import opened PathText
  import opened Expansion

  const SLASH := Lit('/')
  const DOT := Lit('.')

  // ---------------------------------------------------------------- the operation

  /** Absolute, or left to expansion to make absolute. */
  predicate CarriesItsOwnBase(path: string) {
    path != "" && (path[0] == '/' || path[0] == '~' || path[0] == '$')
  }

  /** `base.replace('$', "$$")`: expansion gives the directory's real name back. */
  function Escape(s: string): string {
    if s == "" then "" else (if s[0] == '$' then "$$" else [s[0]]) + Escape(s[1..])
  }

  /** `Path::join` with a relative path. */
  function JoinPath(base: string, path: string): string
    requires base != ""
  {
    if base[|base| - 1] == '/' then base + path else base + "/" + path
  }

  /** `path.contains("..")`. */
  predicate HasDots(path: string) {
    |path| >= 2 && ((path[0] == '.' && path[1] == '.') || HasDots(path[1..]))
  }

  predicate IsAbsolute(base: string) {
    base != "" && base[0] == '/'
  }

  /** One value under `base`. A value with both a reference and a `..` keeps its `..`. */
  function Anchor(base: string, path: string): string
    requires IsAbsolute(base)
  {
    if CarriesItsOwnBase(path) then path
    else
      EscapeKeepsEnds(base);
      var joined := JoinPath(Escape(base), path);
      if '$' in path && HasDots(path) then Render('/', Components(joined)) else Clean(joined)
  }

  lemma {:induction false} EscapeKeepsEnds(s: string)
    requires s != ""
    ensures Escape(s) != ""
    ensures Escape(s)[0] == s[0] && Escape(s)[|Escape(s)| - 1] == s[|s| - 1]
  {
    if |s| > 1 {
      EscapeKeepsEnds(s[1..]);
    }
  }

  // ---------------------------------------------------------------- escaping and cleaning commute

  function EscapeEach(pieces: seq<string>): seq<string> {
    if pieces == [] then [] else [Escape(pieces[0])] + EscapeEach(pieces[1..])
  }

  lemma {:induction false} EscapeAppend(a: string, b: string)
    ensures Escape(a + b) == Escape(a) + Escape(b)
  {
    if a == "" {
      assert a + b == b;
    } else {
      assert (a + b)[1..] == a[1..] + b;
      EscapeAppend(a[1..], b);
    }
  }

  lemma {:induction false} EscapeEachAppend(a: seq<string>, b: seq<string>)
    ensures EscapeEach(a + b) == EscapeEach(a) + EscapeEach(b)
  {
    if a == [] {
      assert a + b == b;
    } else {
      assert (a + b)[1..] == a[1..] + b;
      EscapeEachAppend(a[1..], b);
    }
  }

  lemma {:induction false} SplitEscaped(s: string)
    ensures Split('/', Escape(s)) == EscapeEach(Split('/', s))
  {
    if s != "" {
      SplitEscaped(s[1..]);
      var unit := if s[0] == '$' then "$$" else [s[0]];
      assert Escape(s) == unit + Escape(s[1..]);
      if s[0] == '/' {
        SplitAt('/', "", Escape(s[1..]));
        assert "" + "/" + Escape(s[1..]) == Escape(s);
      } else {
        SplitBehind('/', unit, Escape(s[1..]));
        var rest := Split('/', s[1..]);
        assert Escape([s[0]] + rest[0]) == unit + Escape(rest[0]) by {
          assert ([s[0]] + rest[0])[1..] == rest[0];
        }
        assert ([[s[0]] + rest[0]] + rest[1..])[1..] == rest[1..];
      }
    }
  }

  /** An escaped piece is empty, `.` or `..` exactly when the piece is. */
  lemma EscapedPiece(p: string)
    ensures Escape(p) == "" <==> p == ""
    ensures Escape(p) == "." <==> p == "."
    ensures Escape(p) == ".." <==> p == ".."
  {
    if p != "" {
      EscapeKeepsEnds(p);
      if |p| > 1 {
        EscapeKeepsEnds(p[1..]);
        assert |p| > 2 ==> |Escape(p[1..][1..])| > 0 by {
          if |p| > 2 {
            EscapeKeepsEnds(p[1..][1..]);
          }
        }
      }
    }
  }

  lemma {:induction false} KeptEscaped(pieces: seq<string>)
    ensures Kept('.', EscapeEach(pieces)) == EscapeEach(Kept('.', pieces))
  {
    if pieces != [] {
      KeptEscaped(pieces[1..]);
      EscapedPiece(pieces[0]);
      assert EscapeEach([pieces[0]]) == [Escape(pieces[0])];
      EscapeEachAppend(if IsKept('.', pieces[0]) then [pieces[0]] else [], Kept('.', pieces[1..]));
    }
  }

  lemma {:induction false} FoldEscaped(stack: seq<string>, pieces: seq<string>)
    ensures Fold('.', EscapeEach(stack), EscapeEach(pieces)) == EscapeEach(Fold('.', stack, pieces))
    decreases pieces
  {
    if pieces != [] {
      EscapedPiece(pieces[0]);
      if pieces[0] != ".." {
        EscapeEachAppend(stack, [pieces[0]]);
        assert EscapeEach([pieces[0]]) == [Escape(pieces[0])];
        FoldEscaped(stack + [pieces[0]], pieces[1..]);
      } else if stack != [] {
        var front := stack[..|stack| - 1];
        assert stack == front + [stack[|stack| - 1]];
        EscapeEachAppend(front, [stack[|stack| - 1]]);
        assert EscapeEach([stack[|stack| - 1]]) == [Escape(stack[|stack| - 1])];
        assert EscapeEach(stack)[..|EscapeEach(stack)| - 1] == EscapeEach(front);
        FoldEscaped(front, pieces[1..]);
      } else {
        FoldEscaped([], pieces[1..]);
      }
    }
  }

  lemma {:induction false} EachEscaped(pieces: seq<string>)
    ensures Each('/', EscapeEach(pieces)) == Escape(Each('/', pieces))
  {
    if pieces != [] {
      EachEscaped(pieces[1..]);
      EscapeAppend("/" + pieces[0], Each('/', pieces[1..]));
      EscapeAppend("/", pieces[0]);
      assert Escape("/") == "/";
    }
  }

  lemma ComponentsEscaped(s: string)
    ensures Components(Escape(s)) == EscapeEach(Components(s))
  {
    SplitEscaped(s);
    KeptEscaped(Split('/', s));
  }

  lemma {:induction false} EscapeWithoutDollar(s: string)
    requires '$' !in s
    ensures Escape(s) == s
  {
    if s != "" {
      EscapeWithoutDollar(s[1..]);
      assert s == [s[0]] + s[1..];
    }
  }

  lemma JoinedComponents(base: string, path: string)
    requires base != ""
    ensures Components(JoinPath(base, path)) == Components(base) + Components(path)
  {
    if base[|base| - 1] == '/' {
      var front := base[..|base| - 1];
      assert base == front + "/" + "" && JoinPath(base, path) == front + "/" + path;
      ComponentsAt(front, "");
      ComponentsAt(front, path);
    } else {
      ComponentsAt(base, path);
    }
  }

  // ---------------------------------------------------------------- names and slashes

  /** What dropping empty and dot components does inside a braced name. */
  function Squeeze(name: string): string {
    var ps := Split('/', name);
    if |ps| == 1 then name
    else ps[0] + Each('/', Kept('.', ps[1..|ps| - 1])) + "/" + ps[|ps| - 1]
  }

  /** No `//` and no `/./` in the name. */
  predicate IsTight(name: string) {
    var ps := Split('/', name);
    forall k | 0 < k < |ps| - 1 :: IsKept('.', ps[k])
  }

  lemma {:induction false} KeptShortens(pieces: seq<string>)
    ensures |Each('/', Kept('.', pieces))| <= |Each('/', pieces)|
    ensures (forall k | 0 <= k < |pieces| :: IsKept('.', pieces[k])) ==> Kept('.', pieces) == pieces
    ensures |Each('/', Kept('.', pieces))| == |Each('/', pieces)| ==>
              forall k | 0 <= k < |pieces| :: IsKept('.', pieces[k])
  {
    if pieces != [] {
      KeptShortens(pieces[1..]);
      if IsKept('.', pieces[0]) {
        assert ([pieces[0]] + Kept('.', pieces[1..]))[1..] == Kept('.', pieces[1..]);
        assert pieces == [pieces[0]] + pieces[1..];
      } else {
        assert Kept('.', pieces) == Kept('.', pieces[1..]);
      }
    }
  }

  lemma Regroup(first: string, middle: string, last: string)
    ensures "/" + first + (middle + ("/" + last)) == "/" + (first + middle + "/" + last)
  {
  }

  lemma EachParts(first: string, middle: seq<string>, last: string)
    ensures Each('/', [first] + (middle + [last])) == "/" + (first + Each('/', middle) + "/" + last)
  {
    EachAppend('/', middle, [last]);
    assert Each('/', [last]) == "/" + last;
    assert ([first] + (middle + [last]))[1..] == middle + [last];
    Regroup(first, Each('/', middle), last);
  }

  /** A name with slashes is its first piece, its middle and its last. */
  lemma NameParts(name: string)
    requires |Split('/', name)| > 1
    ensures var ps := Split('/', name);
            name == ps[0] + Each('/', ps[1..|ps| - 1]) + "/" + ps[|ps| - 1]
  {
    EachSplit('/', name);
    var ps := Split('/', name);
    EachParts(ps[0], ps[1..|ps| - 1], ps[|ps| - 1]);
    assert ps == [ps[0]] + (ps[1..|ps| - 1] + [ps[|ps| - 1]]);
    assert ("/" + name)[1..] == name;
  }

  lemma SqueezeIffTight(name: string)
    ensures Squeeze(name) == name <==> IsTight(name)
  {
    var ps := Split('/', name);
    if |ps| > 1 {
      NameParts(name);
      var middle := ps[1..|ps| - 1];
      KeptShortens(middle);
      assert forall k | 0 < k < |ps| - 1 :: ps[k] == middle[k - 1];
      assert IsTight(name) <==> forall k | 0 <= k < |middle| :: IsKept('.', middle[k]);
    }
  }

  function SqueezeToken(t: Token): Token {
    match t
    case Braced(name) => Braced(Squeeze(name))
    case _ => t
  }

  function SqueezeAll(ts: seq<Token>): seq<Token> {
    if ts == [] then [] else [SqueezeToken(ts[0])] + SqueezeAll(ts[1..])
  }

  function SqueezeNames(names: seq<string>): seq<string> {
    if names == [] then [] else [Squeeze(names[0])] + SqueezeNames(names[1..])
  }

  lemma {:induction false} SplitAround(a: string, middle: seq<string>, z: string)
    requires '/' !in a && forall k | 0 <= k < |middle| :: '/' !in middle[k]
    ensures Split('/', a + Each('/', middle) + "/" + z) == [a] + middle + Split('/', z)
    decreases |middle|
  {
    SplitWhole('/', a);
    if middle == [] {
      assert a + Each('/', middle) + "/" + z == a + "/" + z;
      SplitAt('/', a, z);
      assert [a] + middle == [a];
    } else {
      var rest := middle[0] + Each('/', middle[1..]) + "/" + z;
      assert a + Each('/', middle) + "/" + z == a + "/" + rest;
      SplitAt('/', a, rest);
      SplitAround(middle[0], middle[1..], z);
      assert middle == [middle[0]] + middle[1..];
      assert [a] + ([middle[0]] + middle[1..] + Split('/', z)) == [a] + middle + Split('/', z);
    }
  }
}
