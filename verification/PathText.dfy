/**
 Paths as text between slashes: splitting, joining and lexical cleaning. The
 list functions serve characters and expansion tokens alike.
 */
module PathText {

  /** The stretches between separators; one more than there are separators. */
  function Split<A(==)>(sep: A, s: seq<A>): (pieces: seq<seq<A>>)
    ensures pieces != []
  {
    if s == [] then [[]]
    else
      var rest := Split(sep, s[1..]);
      if s[0] == sep then [[]] + rest else [[s[0]] + rest[0]] + rest[1..]
  }

  /** Every piece behind a separator. */
  function Each<A>(sep: A, pieces: seq<seq<A>>): seq<A> {
    if pieces == [] then [] else [sep] + pieces[0] + Each(sep, pieces[1..])
  }

  /** An absolute path with these components. */
  function Render<A>(sep: A, pieces: seq<seq<A>>): seq<A> {
    if pieces == [] then [sep] else Each(sep, pieces)
  }

  /** `Path::components` drops empty components and single dots. */
  predicate IsKept<A(==)>(dot: A, piece: seq<A>) {
    piece != [] && piece != [dot]
  }

  function Kept<A(==)>(dot: A, pieces: seq<seq<A>>): seq<seq<A>> {
    if pieces == [] then []
    else (if IsKept(dot, pieces[0]) then [pieces[0]] else []) + Kept(dot, pieces[1..])
  }

  /** `..` takes the component before it along, and disappears at the root. */
  function Fold<A(==)>(dot: A, stack: seq<seq<A>>, pieces: seq<seq<A>>): seq<seq<A>>
    decreases pieces
  {
    if pieces == [] then stack
    else if pieces[0] != [dot, dot] then Fold(dot, stack + [pieces[0]], pieces[1..])
    else Fold(dot, if stack == [] then [] else stack[..|stack| - 1], pieces[1..])
  }

  function Components(path: string): seq<string> {
    Kept('.', Split('/', path))
  }

  /** `path_clean::clean` of an absolute path. */
  function Clean(path: string): string {
    Render('/', Fold('.', [], Components(path)))
  }

  // ---------------------------------------------------------------- laws

  lemma {:induction false} EachSplit<A>(sep: A, s: seq<A>)
    ensures Each(sep, Split(sep, s)) == [sep] + s
  {
    if s == [] {
      assert Each(sep, [[]]) == [sep] + [] + Each(sep, []);
    } else {
      EachSplit(sep, s[1..]);
      var rest := Split(sep, s[1..]);
      assert s == [s[0]] + s[1..];
      if s[0] == sep {
        assert ([[]] + rest)[1..] == rest;
      } else {
        assert ([[s[0]] + rest[0]] + rest[1..])[1..] == rest[1..];
        assert Each(sep, rest)[1..] == rest[0] + Each(sep, rest[1..]);
      }
    }
  }

  lemma {:induction false} EachAppend<A>(sep: A, a: seq<seq<A>>, b: seq<seq<A>>)
    ensures Each(sep, a + b) == Each(sep, a) + Each(sep, b)
  {
    if a == [] {
      assert a + b == b;
    } else {
      assert (a + b)[1..] == a[1..] + b;
      EachAppend(sep, a[1..], b);
    }
  }

  lemma {:induction false} SplitAt<A>(sep: A, a: seq<A>, b: seq<A>)
    ensures Split(sep, a + [sep] + b) == Split(sep, a) + Split(sep, b)
  {
    var whole := a + [sep] + b;
    if a == [] {
      assert whole[1..] == b;
    } else {
      assert whole[1..] == a[1..] + [sep] + b;
      SplitAt(sep, a[1..], b);
    }
  }

  lemma {:induction false} SplitBehind<A>(sep: A, a: seq<A>, b: seq<A>)
    requires sep !in a
    ensures Split(sep, a + b) == [a + Split(sep, b)[0]] + Split(sep, b)[1..]
  {
    if a == [] {
      assert a + b == b && a + Split(sep, b)[0] == Split(sep, b)[0];
    } else {
      assert (a + b)[1..] == a[1..] + b;
      SplitBehind(sep, a[1..], b);
      assert a[0] in a && a == [a[0]] + a[1..];
      assert [a[0]] + (a[1..] + Split(sep, b)[0]) == a + Split(sep, b)[0];
    }
  }

  lemma SplitWhole<A>(sep: A, a: seq<A>)
    requires sep !in a
    ensures Split(sep, a) == [a]
  {
    SplitBehind(sep, a, []);
    assert a + [] == a;
  }

  lemma {:induction false} PiecesHaveNoSeparator<A>(sep: A, s: seq<A>)
    ensures forall k | 0 <= k < |Split(sep, s)| :: sep !in Split(sep, s)[k]
  {
    if s != [] {
      PiecesHaveNoSeparator(sep, s[1..]);
    }
  }

  lemma {:induction false} KeptAppend<A>(dot: A, a: seq<seq<A>>, b: seq<seq<A>>)
    ensures Kept(dot, a + b) == Kept(dot, a) + Kept(dot, b)
  {
    if a == [] {
      assert a + b == b;
    } else {
      assert (a + b)[1..] == a[1..] + b;
      KeptAppend(dot, a[1..], b);
    }
  }

  lemma ComponentsAt(a: string, b: string)
    ensures Components(a + "/" + b) == Components(a) + Components(b)
  {
    SplitAt('/', a, b);
    KeptAppend('.', Split('/', a), Split('/', b));
  }

  lemma {:induction false} FoldAppend<A>(dot: A, stack: seq<seq<A>>, a: seq<seq<A>>, b: seq<seq<A>>)
    ensures Fold(dot, stack, a + b) == Fold(dot, Fold(dot, stack, a), b)
    decreases a
  {
    if a == [] {
      assert a + b == b;
    } else {
      assert (a + b)[1..] == a[1..] + b;
      if a[0] != [dot, dot] {
        FoldAppend(dot, stack + [a[0]], a[1..], b);
      } else {
        FoldAppend(dot, if stack == [] then [] else stack[..|stack| - 1], a[1..], b);
      }
    }
  }

  lemma {:induction false} FoldWithoutUps<A>(dot: A, stack: seq<seq<A>>, pieces: seq<seq<A>>)
    requires [dot, dot] !in pieces
    ensures Fold(dot, stack, pieces) == stack + pieces
    decreases pieces
  {
    if pieces != [] {
      FoldWithoutUps(dot, stack + [pieces[0]], pieces[1..]);
      assert pieces == [pieces[0]] + pieces[1..];
      assert stack + [pieces[0]] + pieces[1..] == stack + pieces;
    }
  }

  lemma {:induction false} FoldLeavesNoUps<A>(dot: A, stack: seq<seq<A>>, pieces: seq<seq<A>>)
    requires [dot, dot] !in stack
    ensures [dot, dot] !in Fold(dot, stack, pieces)
    ensures forall p :: p in Fold(dot, stack, pieces) ==> p in stack || p in pieces
    decreases pieces
  {
    if pieces != [] {
      if pieces[0] != [dot, dot] {
        FoldLeavesNoUps(dot, stack + [pieces[0]], pieces[1..]);
      } else {
        FoldLeavesNoUps(dot, if stack == [] then [] else stack[..|stack| - 1], pieces[1..]);
      }
    }
  }

  /** Folding a prefix early does not change the outcome. */
  lemma FoldPrefix<A>(dot: A, a: seq<seq<A>>, b: seq<seq<A>>)
    ensures Fold(dot, [], Fold(dot, [], a) + b) == Fold(dot, [], a + b)
  {
    var folded := Fold(dot, [], a);
    FoldAppend(dot, [], a, b);
    FoldLeavesNoUps(dot, [], a);
    FoldAppend(dot, [], folded, b);
    FoldWithoutUps(dot, [], folded);
    assert [] + folded == folded;
  }

  lemma {:induction false} KeptOfKept<A>(dot: A, pieces: seq<seq<A>>)
    ensures forall p :: p in Kept(dot, pieces) <==> p in pieces && IsKept(dot, p)
  {
    if pieces != [] {
      KeptOfKept(dot, pieces[1..]);
      assert pieces == [pieces[0]] + pieces[1..];
    }
  }
}
