/**
 Turning command-line paths into the list of files to process: one spelling per
 file, the same list whatever order directories are read in.
 */
module Files {

  datatype Result<+T> = Ok(value: T) | Err(argument: nat)

  /** A clean absolute path, as its components. */
  type Path = seq<string>
  type FileId = nat

  // ---------------------------------------------------------------- the order of paths

  predicate NameLeq(a: string, b: string) {
    a == [] || (b != [] && (a[0] < b[0] || (a[0] == b[0] && NameLeq(a[1..], b[1..]))))
  }

  /** Paths compare component by component. */
  predicate Leq(a: Path, b: Path) {
    a == [] || (b != [] && if a[0] == b[0] then Leq(a[1..], b[1..]) else NameLeq(a[0], b[0]))
  }

  lemma {:induction false} NameLeqTotalOrder(a: string, b: string, c: string)
    ensures NameLeq(a, a) && (NameLeq(a, b) || NameLeq(b, a))
    ensures NameLeq(a, b) && NameLeq(b, a) ==> a == b
    ensures NameLeq(a, b) && NameLeq(b, c) ==> NameLeq(a, c)
    decreases |a| + |b| + |c|
  {
    if a != [] {
      NameLeqTotalOrder(a[1..], if b != [] then b[1..] else b, if c != [] then c[1..] else c);
      if b != [] && NameLeq(a, b) && NameLeq(b, a) {
        assert a == [a[0]] + a[1..] && b == [b[0]] + b[1..];
      }
    }
  }

  lemma {:induction false} LeqTotalOrder(a: Path, b: Path, c: Path)
    ensures Leq(a, a) && (Leq(a, b) || Leq(b, a))
    ensures Leq(a, b) && Leq(b, a) ==> a == b
    ensures Leq(a, b) && Leq(b, c) ==> Leq(a, c)
    decreases |a| + |b| + |c|
  {
    if a != [] {
      LeqTotalOrder(a[1..], if b != [] then b[1..] else b, if c != [] then c[1..] else c);
      if b != [] {
        NameLeqTotalOrder(a[0], b[0], if c != [] then c[0] else "");
        NameLeqTotalOrder(b[0], a[0], "");
        if a[0] == b[0] && a[1..] == b[1..] {
          assert a == [a[0]] + a[1..] && b == [b[0]] + b[1..];
        }
      }
    }
  }

  predicate IsSorted(s: seq<Path>) {
    forall j, k | 0 <= j < k < |s| :: Leq(s[j], s[k])
  }

  function Insert(p: Path, s: seq<Path>): (r: seq<Path>)
    ensures multiset(r) == multiset{p} + multiset(s)
  {
    if s == [] then [p]
    else if Leq(p, s[0]) then [p] + s
    else
      assert s == [s[0]] + s[1..];
      [s[0]] + Insert(p, s[1..])
  }

  /** `slice::sort`. */
  function Sort(s: seq<Path>): (r: seq<Path>)
    ensures multiset(r) == multiset(s)
  {
    if s == [] then []
    else
      assert s == [s[0]] + s[1..];
      Insert(s[0], Sort(s[1..]))
  }

  lemma {:induction false} InsertSorted(p: Path, s: seq<Path>)
    requires IsSorted(s)
    ensures IsSorted(Insert(p, s))
  {
    if s != [] {
      LeqTotalOrder(p, s[0], s[0]);
      if Leq(p, s[0]) {
        forall k | 0 <= k < |s|
          ensures Leq(p, s[k])
        {
          LeqTotalOrder(p, s[0], s[k]);
        }
      } else {
        InsertSorted(p, s[1..]);
        var rest := Insert(p, s[1..]);
        forall k | 0 <= k < |rest|
          ensures Leq(s[0], rest[k])
        {
          assert rest[k] in multiset(rest);
          if rest[k] != p {
            assert rest[k] in s[1..];
          }
        }
      }
    }
  }

  lemma {:induction false} SortSorted(s: seq<Path>)
    ensures IsSorted(Sort(s))
  {
    if s != [] {
      SortSorted(s[1..]);
      InsertSorted(s[0], Sort(s[1..]));
    }
  }

  lemma SortedHeadsAgree(a: seq<Path>, b: seq<Path>)
    requires IsSorted(a) && IsSorted(b) && multiset(a) == multiset(b) && a != [] && b != []
    ensures a[0] == b[0]
  {
    assert a[0] in multiset(a) && b[0] in multiset(b);
    assert a[0] in b && b[0] in a;
    LeqTotalOrder(a[0], b[0], a[0]);
  }

  /** A multiset of paths has one sorted listing. */
  lemma WithoutHead(s: seq<Path>)
    requires s != []
    ensures s == [s[0]] + s[1..] && multiset(s[1..]) == multiset(s) - multiset{s[0]}
  {
    assert s == [s[0]] + s[1..];
  }

  lemma {:induction false} SortedIsUnique(a: seq<Path>, b: seq<Path>)
    requires IsSorted(a) && IsSorted(b) && multiset(a) == multiset(b)
    ensures a == b
  {
    assert |a| == |multiset(a)| == |multiset(b)| == |b|;
    if a != [] {
      SortedHeadsAgree(a, b);
      WithoutHead(a);
      WithoutHead(b);
      SortedIsUnique(a[1..], b[1..]);
    }
  }

  lemma SortForgetsOrder(a: seq<Path>, b: seq<Path>)
    requires multiset(a) == multiset(b)
    ensures Sort(a) == Sort(b)
  {
    SortSorted(a);
    SortSorted(b);
    SortedIsUnique(Sort(a), Sort(b));
  }

  lemma SortKeepsMembers(s: seq<Path>)
    ensures forall p :: p in Sort(s) <==> p in s
  {
    forall p
      ensures p in Sort(s) <==> p in s
    {
      assert p in Sort(s) <==> p in multiset(Sort(s));
      assert p in s <==> p in multiset(s);
    }
  }

  // ---------------------------------------------------------------- collecting

  /** What one argument turned out to be; `walked` lists a directory's supported
      files in the order the file system yields them. */
  datatype Argument =
    | Inaccessible
    | Special
    | File(path: Path, excluded: bool)
    | Directory(excluded: bool, walked: seq<Path>, errors: nat)
  {
    predicate Rejected() { Inaccessible? || Special? }

    function Share(): seq<Path> {
      match this
      case File(path, excluded) => if excluded then [] else [path]
      case Directory(excluded, walked, _) => if excluded then [] else walked
      case _ => []
    }

    function Errors(): nat {
      if Directory? && !excluded then errors else 0
    }
  }

  /** The collection order: argument by argument, sorted within each. */
  function Collected(args: seq<Argument>): seq<Path> {
    if args == [] then [] else Collected(args[..|args| - 1]) + Sort(args[|args| - 1].Share())
  }

  function WalkErrors(args: seq<Argument>): nat {
    if args == [] then 0 else WalkErrors(args[..|args| - 1]) + args[|args| - 1].Errors()
  }

  /** The first entry of each readable identity, and every unreadable one. */
  function FirstSpellings(files: seq<Path>, ids: map<Path, FileId>, seen: set<FileId>): seq<Path> {
    if files == [] then []
    else if files[0] in ids && ids[files[0]] in seen then FirstSpellings(files[1..], ids, seen)
    else [files[0]] + FirstSpellings(files[1..], ids, if files[0] in ids then seen + {ids[files[0]]} else seen)
  }

  /** `Vec::dedup`: drop consecutive repetitions. */
  function WithoutRepeats(files: seq<Path>): seq<Path> {
    if |files| < 2 then files
    else if files[0] == files[1] then WithoutRepeats(files[1..])
    else [files[0]] + WithoutRepeats(files[1..])
  }

  /** The first argument that cannot be collected, or the number of arguments. */
  function FirstRejected(args: seq<Argument>): (k: nat)
    ensures k <= |args| && (k < |args| ==> args[k].Rejected()) && forall j | 0 <= j < k :: !args[j].Rejected()
  {
    if args == [] then 0 else if args[0].Rejected() then 0 else 1 + FirstRejected(args[1..])
  }

  /** What the command makes of its arguments. */
  function Collection(args: seq<Argument>, ids: map<Path, FileId>): Result<CollectedFiles> {
    if FirstRejected(args) < |args| then Err(FirstRejected(args))
    else Ok(CollectedFiles(WithoutRepeats(Sort(FirstSpellings(Collected(args), ids, {}))), WalkErrors(args)))
  }

  datatype CollectedFiles = CollectedFiles(files: seq<Path>, walkErrors: nat)

  /** Drop every entry that names a file already seen earlier. */
  method DedupAliases(files: seq<Path>, ids: map<Path, FileId>) returns (kept: seq<Path>)
    ensures kept == FirstSpellings(files, ids, {})
  {
    kept := [];
    var seen: set<FileId> := {};
    var k := 0;
    while k < |files|
      invariant k <= |files|
      invariant kept + FirstSpellings(files[k..], ids, seen) == FirstSpellings(files, ids, {})
    {
      assert files[k..][1..] == files[k + 1..];
      if files[k] !in ids {
        kept := kept + [files[k]];
      } else if ids[files[k]] !in seen {
        seen := seen + {ids[files[k]]};
        kept := kept + [files[k]];
      }
      k := k + 1;
    }
  }

  /** Append one argument's files, and sort that argument's share: the walker
      yields directory order. */
  method Gather(argument: Argument, files: seq<Path>) returns (after: seq<Path>, errors: nat)
    requires !argument.Rejected()
    ensures after == files + Sort(argument.Share()) && errors == argument.Errors()
  {
    after, errors := files, 0;
    var firstOfThisPath := |files|;
    match argument {
      case File(path, excluded) =>
        if excluded {
          return;
        }
        after := after + [path];
      case Directory(excluded, walked, walkErrors) =>
        if excluded {
          return;
        }
        errors := walkErrors;
        after := after + walked;
    }
    assert after[firstOfThisPath..] == argument.Share();
    after := after[..firstOfThisPath] + Sort(after[firstOfThisPath..]);
  }

  lemma RejectedHere(args: seq<Argument>, k: nat)
    requires k < |args| && k <= FirstRejected(args)
    ensures if args[k].Rejected() then k == FirstRejected(args) else k < FirstRejected(args)
  {
    var first := FirstRejected(args);
    assert k < first ==> !args[k].Rejected();
  }

  lemma OneMoreArgument(args: seq<Argument>, k: nat)
    requires k < |args|
    ensures Collected(args[..k + 1]) == Collected(args[..k]) + Sort(args[k].Share())
    ensures WalkErrors(args[..k + 1]) == WalkErrors(args[..k]) + args[k].Errors()
  {
    assert args[..k + 1][..k] == args[..k];
  }

  /** Expand the arguments into the files to process. */
  method CollectFiles(args: seq<Argument>, ids: map<Path, FileId>) returns (r: Result<CollectedFiles>)
    ensures r == Collection(args, ids)
  {
    var files: seq<Path> := [];
    var walkErrors := 0;
    var k := 0;
    while k < |args|
      invariant k <= FirstRejected(args)
      invariant files == Collected(args[..k]) && walkErrors == WalkErrors(args[..k])
    {
      RejectedHere(args, k);
      if args[k].Rejected() {
        return Err(k);
      }
      OneMoreArgument(args, k);
      var errors;
      files, errors := Gather(args[k], files);
      walkErrors := walkErrors + errors;
      k := k + 1;
    }
    assert args[..k] == args;
    var deduplicated := DedupAliases(files, ids);
    return Ok(CollectedFiles(WithoutRepeats(Sort(deduplicated)), walkErrors));
  }

  // ---------------------------------------------------------------- directory order does not matter

  /** The same arguments, with every directory walked in some other order. */
  predicate SameUpToWalk(args: seq<Argument>, others: seq<Argument>) {
    && |args| == |others|
    && forall k | 0 <= k < |args| ::
         if args[k].Directory? then
           && others[k].Directory? && others[k].excluded == args[k].excluded && others[k].errors == args[k].errors
           && multiset(others[k].walked) == multiset(args[k].walked)
         else others[k] == args[k]
  }

  lemma {:induction false} WalkOrderIsForgotten(args: seq<Argument>, others: seq<Argument>)
    requires SameUpToWalk(args, others)
    ensures Collected(args) == Collected(others) && WalkErrors(args) == WalkErrors(others)
  {
    if args != [] {
      var n := |args| - 1;
      WalkOrderIsForgotten(args[..n], others[..n]);
      SortForgetsOrder(args[n].Share(), others[n].Share());
    }
  }

  /** The result is the same for every order the file system may yield. */
  lemma DirectoryOrderDoesNotMatter(args: seq<Argument>, others: seq<Argument>, ids: map<Path, FileId>)
    requires SameUpToWalk(args, others)
    ensures Collection(args, ids) == Collection(others, ids)
  {
    WalkOrderIsForgotten(args, others);
    var k, m := FirstRejected(args), FirstRejected(others);
    assert k < |args| ==> others[k].Rejected();
    assert m < |others| ==> args[m].Rejected();
  }

  // ---------------------------------------------------------------- which spelling survives

  predicate Reaches(args: seq<Argument>, b: int, p: Path) {
    0 <= b < |args| && p in args[b].Share()
  }

  /** `p` is the spelling the user named first for its file: no earlier argument
      reaches that file, and no smaller spelling in the same argument does. */
  ghost predicate NamedFirst(args: seq<Argument>, ids: map<Path, FileId>, p: Path, a: nat)
    requires a < |args|
  {
    && p in args[a].Share()
    && (p in ids ==>
          && (forall b, q :: 0 <= b < a && Reaches(args, b, q) && q in ids ==> ids[q] != ids[p])
          && (forall q :: q in args[a].Share() && q in ids && ids[q] == ids[p] ==> Leq(p, q)))
  }

  function IdsOf(files: seq<Path>, ids: map<Path, FileId>): set<FileId> {
    set p | p in files && p in ids :: ids[p]
  }

  lemma {:induction false} FirstSpellingsAppend(a: seq<Path>, b: seq<Path>, ids: map<Path, FileId>, seen: set<FileId>)
    ensures FirstSpellings(a + b, ids, seen) ==
            FirstSpellings(a, ids, seen) + FirstSpellings(b, ids, seen + IdsOf(a, ids))
  {
    if a == [] {
      assert a + b == b && seen + IdsOf(a, ids) == seen;
    } else {
      assert (a + b)[1..] == a[1..] + b && a == [a[0]] + a[1..];
      var seen1 := if a[0] in ids then seen + {ids[a[0]]} else seen;
      FirstSpellingsAppend(a[1..], b, ids, seen1);
      assert seen1 + IdsOf(a[1..], ids) == seen + IdsOf(a, ids);
      if a[0] in ids && ids[a[0]] in seen {
        assert seen1 == seen;
      }
    }
  }

  /** `p` survives in a share: it is there, and it is the smallest spelling of a file not seen before. */
  ghost predicate SurvivesIn(share: seq<Path>, ids: map<Path, FileId>, seen: set<FileId>, p: Path) {
    && p in share
    && (p in ids ==> ids[p] !in seen && forall q :: q in share && q in ids && ids[q] == ids[p] ==> Leq(p, q))
  }

  lemma {:induction false} SurvivorsOfShare(share: seq<Path>, ids: map<Path, FileId>, seen: set<FileId>, p: Path)
    requires IsSorted(share)
    ensures p in FirstSpellings(share, ids, seen) <==> SurvivesIn(share, ids, seen, p)
  {
    if share != [] {
      var head, tail := share[0], share[1..];
      assert share == [head] + tail;
      forall q | q in share
        ensures Leq(head, q)
      {
        LeqTotalOrder(head, head, head);
      }
      LeqTotalOrder(head, p, head);
      if head in ids && ids[head] in seen {
        SurvivorsOfShare(tail, ids, seen, p);
      } else {
        SurvivorsOfShare(tail, ids, if head in ids then seen + {ids[head]} else seen, p);
      }
    }
  }

  lemma {:induction false} CollectedMembers(args: seq<Argument>, p: Path)
    ensures p in Collected(args) <==> exists b :: Reaches(args, b, p)
  {
    if args != [] {
      var n := |args| - 1;
      CollectedMembers(args[..n], p);
      SortKeepsMembers(args[n].Share());
      ReachesSplit(args, args[..n], p);
    }
  }

  lemma ReachesSplit(args: seq<Argument>, front: seq<Argument>, p: Path)
    requires args != [] && front == args[..|args| - 1]
    ensures (exists b :: Reaches(args, b, p)) <==> (exists b :: Reaches(front, b, p)) || p in args[|args| - 1].Share()
  {
    var n := |args| - 1;
    if b :| Reaches(front, b, p) {
      assert Reaches(args, b, p);
    }
    if b :| Reaches(args, b, p) {
      assert b < n ==> Reaches(front, b, p);
    }
    assert p in args[n].Share() ==> Reaches(args, n, p);
  }

  ghost predicate Survives(args: seq<Argument>, ids: map<Path, FileId>, p: Path) {
    exists a :: 0 <= a < |args| && NamedFirst(args, ids, p, a)
  }

  lemma {:induction false} SurvivorsOfCollection(args: seq<Argument>, ids: map<Path, FileId>, p: Path)
    ensures p in FirstSpellings(Collected(args), ids, {}) <==> Survives(args, ids, p)
  {
    if args != [] {
      var n := |args| - 1;
      var front, share := args[..n], args[n].Share();
      SurvivorsOfCollection(front, ids, p);
      FirstSpellingsAppend(Collected(front), Sort(share), ids, {});
      assert {} + IdsOf(Collected(front), ids) == IdsOf(Collected(front), ids);
      SortSorted(share);
      SortKeepsMembers(share);
      SurvivorsOfShare(Sort(share), ids, IdsOf(Collected(front), ids), p);
      NamedFirstInLast(args, ids, p);
      SurvivesSplit(args, ids, p);
    }
  }

  lemma SurvivesSplit(args: seq<Argument>, ids: map<Path, FileId>, p: Path)
    requires args != []
    ensures Survives(args, ids, p) <==> Survives(args[..|args| - 1], ids, p) || NamedFirst(args, ids, p, |args| - 1)
  {
    var n := |args| - 1;
    forall a | 0 <= a < n
      ensures NamedFirst(args[..n], ids, p, a) <==> NamedFirst(args, ids, p, a)
    {
      assert forall b, q :: 0 <= b < a ==> (Reaches(args[..n], b, q) <==> Reaches(args, b, q));
    }
  }

  /** The files seen before an argument are those the earlier arguments reach. */
  lemma SeenEarlier(args: seq<Argument>, ids: map<Path, FileId>, p: Path, n: nat)
    requires n < |args| && p in ids
    ensures ids[p] in IdsOf(Collected(args[..n]), ids) <==>
              exists b, q :: 0 <= b < n && Reaches(args, b, q) && q in ids && ids[q] == ids[p]
  {
    forall q
      ensures q in Collected(args[..n]) <==> exists b :: 0 <= b < n && Reaches(args, b, q)
    {
      CollectedMembers(args[..n], q);
      assert forall b :: 0 <= b < n ==> (Reaches(args[..n], b, q) <==> Reaches(args, b, q));
    }
  }

  lemma NamedFirstInLast(args: seq<Argument>, ids: map<Path, FileId>, p: Path)
    requires args != []
    ensures NamedFirst(args, ids, p, |args| - 1) <==>
              SurvivesIn(Sort(args[|args| - 1].Share()), ids, IdsOf(Collected(args[..|args| - 1]), ids), p)
  {
    var n := |args| - 1;
    SortKeepsMembers(args[n].Share());
    if p in ids {
      SeenEarlier(args, ids, p, n);
    }
  }

  lemma {:induction false} WithoutRepeatsSorted(files: seq<Path>)
    requires IsSorted(files)
    ensures var r := WithoutRepeats(files);
            && IsSorted(r) && (forall p :: p in r <==> p in files)
            && (forall j, k | 0 <= j < k < |r| :: r[j] != r[k])
            && (files != [] ==> r != [] && r[0] == files[0])
  {
    if |files| >= 2 {
      WithoutRepeatsSorted(files[1..]);
      assert files == [files[0]] + files[1..];
      if files[0] != files[1] {
        NewHeadIsStrict(files[0], WithoutRepeats(files[1..]));
      }
    }
  }

  lemma NewHeadIsStrict(head: Path, rest: seq<Path>)
    requires IsSorted(rest) && (forall j, k | 0 <= j < k < |rest| :: rest[j] != rest[k])
    requires rest != [] && Leq(head, rest[0]) && head != rest[0]
    ensures IsSorted([head] + rest)
    ensures forall j, k | 0 <= j < k < |[head] + rest| :: ([head] + rest)[j] != ([head] + rest)[k]
  {
    var r := [head] + rest;
    forall k | 0 <= k < |rest|
      ensures Leq(head, rest[k]) && head != rest[k]
    {
      LeqTotalOrder(head, rest[0], rest[k]);
      LeqTotalOrder(rest[0], head, rest[0]);
    }
    assert forall k :: 0 < k < |r| ==> r[k] == rest[k - 1];
  }

  /** The result lists, in order and without repetition, exactly the first
      spelling of every readable file and every spelling that could not be read. */
  lemma ExactlyTheFirstSpellings(args: seq<Argument>, ids: map<Path, FileId>)
    ensures var files := WithoutRepeats(Sort(FirstSpellings(Collected(args), ids, {})));
            && IsSorted(files)
            && (forall j, k | 0 <= j < k < |files| :: files[j] != files[k])
            && forall p :: p in files <==> Survives(args, ids, p)
  {
    var kept := FirstSpellings(Collected(args), ids, {});
    SortSorted(kept);
    SortKeepsMembers(kept);
    WithoutRepeatsSorted(Sort(kept));
    forall p
      ensures p in kept <==> Survives(args, ids, p)
    {
      SurvivorsOfCollection(args, ids, p);
    }
  }

  /** No readable file is listed under two spellings. */
  lemma OneSpellingPerFile(args: seq<Argument>, ids: map<Path, FileId>, p: Path, q: Path)
    ensures var files := WithoutRepeats(Sort(FirstSpellings(Collected(args), ids, {})));
            p in files && q in files && p in ids && q in ids && ids[p] == ids[q] ==> p == q
  {
    ExactlyTheFirstSpellings(args, ids);
    var files := WithoutRepeats(Sort(FirstSpellings(Collected(args), ids, {})));
    if p in files && q in files && p in ids && q in ids && ids[p] == ids[q] {
      var a :| 0 <= a < |args| && NamedFirst(args, ids, p, a);
      var b :| 0 <= b < |args| && NamedFirst(args, ids, q, b);
      assert Reaches(args, a, p) && Reaches(args, b, q);
      LeqTotalOrder(p, q, p);
    }
  }

  predicate SameFile(ids: map<Path, FileId>, p: Path, q: Path) {
    if p in ids then q in ids && ids[q] == ids[p] else q == p
  }

  /** The pass drops an entry only for one of the same file that it keeps. */
  lemma {:induction false} NoFileIsDropped(files: seq<Path>, ids: map<Path, FileId>, seen: set<FileId>, p: Path)
    requires p in files && (p in ids ==> ids[p] !in seen)
    ensures exists q :: q in FirstSpellings(files, ids, seen) && SameFile(ids, p, q)
  {
    var head, rest := files[0], files[1..];
    assert files == [head] + rest;
    if head in ids && ids[head] in seen {
      NoFileIsDropped(rest, ids, seen, p);
    } else if SameFile(ids, p, head) {
      assert head in FirstSpellings(files, ids, seen);
    } else {
      var after := if head in ids then seen + {ids[head]} else seen;
      NoFileIsDropped(rest, ids, after, p);
      var q :| q in FirstSpellings(rest, ids, after) && SameFile(ids, p, q);
      assert q in FirstSpellings(files, ids, seen);
    }
  }

  /** Every file an argument reaches is listed: a readable one under exactly one
      spelling, an unreadable one under its own. */
  lemma EveryFileIsListedOnce(args: seq<Argument>, ids: map<Path, FileId>, a: int, p: Path)
    requires Reaches(args, a, p)
    ensures var files := WithoutRepeats(Sort(FirstSpellings(Collected(args), ids, {})));
            exists q :: q in files && SameFile(ids, p, q)
                    && forall other :: other in files && SameFile(ids, p, other) ==> other == q
  {
    var kept := FirstSpellings(Collected(args), ids, {});
    CollectedMembers(args, p);
    NoFileIsDropped(Collected(args), ids, {}, p);
    var q :| q in kept && SameFile(ids, p, q);
    SortKeepsMembers(kept);
    SortSorted(kept);
    WithoutRepeatsSorted(Sort(kept));
    var files := WithoutRepeats(Sort(kept));
    forall other | other in files && SameFile(ids, p, other)
      ensures other == q
    {
      OneSpellingPerFile(args, ids, q, other);
    }
  }
}
