/**
 Staging an install: the walk over a language and everything it inherits that
 decides what has to be downloaded, published and locked.
 */
module Staging {
  import opened LanguageSlot
  import opened Wrappers

  // ---------------------------------------------------------------- what staging does to the live directory

  /** A language staging visited, and the stranded backup recovery picked for it, if any. */
  datatype Visit = Visit(lang: Lang, recovers: Option<RunId>)

  /** Staging clears the tombstone of a language and then recovers a stranded copy. */
  function VisitSlot(slot: Slot, visit: Visit): (r: Slot)
    ensures r.parser == slot.parser
    ensures slot.queries.Some? ==> r.queries == slot.queries
    ensures slot.queries.None? && r.queries.Some? ==>
              && visit.recovers.Some? && visit.recovers.value in slot.backups
              && r.queries.value == slot.backups[visit.recovers.value]
    ensures r.backups.Keys <= slot.backups.Keys && (r.tombstone ==> slot.tombstone)
  {
    var cleared := slot.(tombstone := false);
    if visit.recovers.Some? && Recoverable(cleared, visit.recovers.value) then Recover(cleared, visit.recovers.value)
    else cleared
  }

  function AfterVisits(slots: Disk, visits: seq<Visit>): Disk
    decreases |visits|
  {
    if visits == [] then slots
    else AfterVisits(slots[visits[0].lang := VisitSlot(At(slots, visits[0].lang), visits[0])], visits[1..])
  }

  function LangsOf(visits: seq<Visit>): set<Lang> {
    if visits == [] then {} else LangsOf(visits[..|visits| - 1]) + {visits[|visits| - 1].lang}
  }

  lemma {:induction false} LangsOfMembers(visits: seq<Visit>, v: Visit)
    requires v in visits
    ensures v.lang in LangsOf(visits)
  {
    var n := |visits| - 1;
    assert visits == visits[..n] + [visits[n]];
    if v != visits[n] {
      LangsOfMembers(visits[..n], v);
    }
  }

  lemma SomeVisitSomeLang(visits: seq<Visit>)
    ensures visits != [] ==> LangsOf(visits) != {}
  {
    if visits != [] {
      assert visits[|visits| - 1].lang in LangsOf(visits);
    }
  }

  predicate DistinctVisits(visits: seq<Visit>) {
    forall j, k | 0 <= j < k < |visits| :: visits[j].lang != visits[k].lang
  }

  /** Staging never touches a parser or a live query copy; all it can add is a
      complete copy an earlier run stranded. */
  lemma {:induction false} VisitsOnlyRecover(slots: Disk, visits: seq<Visit>, l: Lang)
    ensures var before, after := At(slots, l), At(AfterVisits(slots, visits), l);
            && after.parser == before.parser
            && (before.queries.Some? ==> after.queries == before.queries)
            && (after.queries != before.queries ==>
                  exists b :: b in before.backups && after.queries == Some(before.backups[b])
                              && before.backups[b].complete)
            && after.backups.Keys <= before.backups.Keys
            && (after.tombstone ==> before.tombstone)
    decreases |visits|
  {
    if visits != [] {
      var l0 := visits[0].lang;
      var slots1 := slots[l0 := VisitSlot(At(slots, l0), visits[0])];
      VisitsOnlyRecover(slots1, visits[1..], l);
      assert l != l0 ==> At(slots1, l) == At(slots, l);
    }
  }

  /** A run's staging changes the live queries of a language exactly when an
      earlier run stranded a complete copy that recovery picks up. */
  lemma {:induction false} VisitsChangeQueriesIff(slots: Disk, visits: seq<Visit>, l: Lang)
    requires DistinctVisits(visits)
    ensures At(AfterVisits(slots, visits), l).queries != At(slots, l).queries <==>
              exists v :: v in visits && v.lang == l && v.recovers.Some?
                          && Recoverable(At(slots, l).(tombstone := false), v.recovers.value)
    decreases |visits|
  {
    if visits != [] {
      var v := visits[0];
      var slots1 := slots[v.lang := VisitSlot(At(slots, v.lang), v)];
      VisitsChangeQueriesIff(slots1, visits[1..], l);
      assert visits == [v] + visits[1..];
      if v.lang == l {
        assert forall w :: w in visits[1..] ==> w.lang != l;
      } else {
        assert At(slots1, l) == At(slots, l);
      }
    }
  }

  lemma {:induction false} OneMoreVisit(slots: Disk, visits: seq<Visit>, v: Visit)
    ensures var after := AfterVisits(slots, visits);
            AfterVisits(slots, visits + [v]) == after[v.lang := VisitSlot(At(after, v.lang), v)]
    decreases |visits|
  {
    if visits == [] {
      assert [v][1..] == [] && visits + [v] == [v];
    } else {
      var slots1 := slots[visits[0].lang := VisitSlot(At(slots, visits[0].lang), visits[0])];
      assert (visits + [v])[1..] == visits[1..] + [v];
      OneMoreVisit(slots1, visits[1..], v);
    }
  }

  lemma {:induction false} UnvisitedUntouched(slots: Disk, visits: seq<Visit>, l: Lang)
    requires forall v | v in visits :: v.lang != l
    ensures At(AfterVisits(slots, visits), l) == At(slots, l)
    decreases |visits|
  {
    if visits != [] {
      assert visits[0] in visits;
      UnvisitedUntouched(slots[visits[0].lang := VisitSlot(At(slots, visits[0].lang), visits[0])], visits[1..], l);
    }
  }

  // ---------------------------------------------------------------- what staging hands over

  /** The copies to publish, in the order they are published, and every language
      the install needs on disk. */
  datatype StagedQueries = StagedQueries(order: seq<Lang>, copies: map<Lang, Copy>, deps: set<Lang>,
                                         files: seq<string>) {
    predicate ValidFor(lang: Lang, force: bool, run: RunId) {
      && (forall j, k | 0 <= j < k < |order| :: order[j] != order[k])
      && (forall d | d in order :: d in copies)
      && (forall d | d in copies :: d in order && d in deps && copies[d].writer == run && copies[d].complete)
      && (forall k | 0 <= k < |order| :: order[k] == lang ==> k == |order| - 1)
      && lang in deps
      && (force ==> lang in copies)
    }

    /** The copy the recheck under the locks reads for `d`. */
    function Prepared(slots: Disk, d: Lang): Option<Copy> {
      PreparedCopy(slots, copies, d)
    }

    predicate Stable(slots: Disk, lang: Lang) {
      forall d | d in deps :: IsCovered(Prepared(slots, d), d == lang, deps)
    }
  }

  // ---------------------------------------------------------------- the walk

  /** What a download brings: the languages its modelines inherit, and its files. */
  datatype Fetch = Fetch(required: set<Lang>, optional: set<Lang>, files: seq<string>)

  /** The outcome of every I/O call staging makes for one language. */
  datatype Step = Step(nameIsSafe: bool, clears: bool, recovers: Option<RunId>, prepares: bool, readable: bool,
                       fetched: Option<Fetch>)

  const NOT_UPSTREAM := Step(true, true, None, true, true, None)

  datatype Request = Request(lang: Lang, force: bool, run: RunId, script: map<Lang, Step>) {
    function StepOf(l: Lang): Step {
      if l in script then script[l] else NOT_UPSTREAM
    }
  }

  /** What a visit of `l` finds: no tombstone, and a stranded copy back in place. */
  function Found(start: Disk, req: Request, l: Lang): Slot {
    VisitSlot(At(start, l), Visit(l, req.StepOf(l).recovers))
  }

  predicate Downloads(start: Disk, req: Request, l: Lang) {
    !Found(start, req, l).Complete() || (l == req.lang && req.force)
  }

  /** The copy of `l` the walk goes by: the one it downloads, or the complete one on the disk. */
  function CopyFor(start: Disk, req: Request, l: Lang): Option<Copy> {
    if !Downloads(start, req, l) then Found(start, req, l).queries
    else match req.StepOf(l).fetched
      case None => None
      case Some(fetch) => Some(Copy(req.run, true, fetch.required, fetch.optional))
  }

  /** Every step staging takes for `l` itself goes through. */
  predicate Passes(start: Disk, req: Request, l: Lang) {
    var step := req.StepOf(l);
    && step.nameIsSafe && step.clears && step.prepares
    && if Downloads(start, req, l) then step.fetched.Some? else step.readable
  }

  /** Staging needs no language outside `good`, and every step for those in it goes through. */
  ghost predicate GoesThrough(start: Disk, req: Request, good: set<Lang>) {
    && req.lang in good
    && forall l | l in good ::
         && Passes(start, req, l) && CopyFor(start, req, l).Some?
         && CopyFor(start, req, l).value.Parents(l == req.lang) <= good
  }

  /** Inheritance goes down in `rank`: no language inherits itself, however indirectly. */
  ghost predicate Ranked(start: Disk, req: Request, rank: Lang -> nat) {
    forall l, p :: CopyFor(start, req, l).Some? && p in CopyFor(start, req, l).value.Parents(l == req.lang) ==>
      rank(p) < rank(l)
  }

  ghost predicate Acyclic(start: Disk, req: Request) {
    exists rank :: Ranked(start, req, rank)
  }

  ghost predicate Below(rank: Lang -> nat, l: Lang, open: set<Lang>) {
    forall d :: d in open ==> rank(l) < rank(d)
  }

  /** What the recursion updates: the disk, the languages visited, the copies
      waiting to be published, and a log of the visits. */
  datatype Walk = Walk(slots: Disk, staged: set<Lang>, order: seq<Lang>, copies: map<Lang, Copy>, visits: seq<Visit>) {
    function Prepared(d: Lang): Option<Copy> {
      PreparedCopy(slots, copies, d)
    }

    /** `d` is complete, and everything it inherits has been visited. */
    predicate Settled(d: Lang, lang: Lang) {
      IsCovered(Prepared(d), d == lang, staged)
    }

    function Visited(visit: Visit): Walk {
      this.(slots := slots[visit.lang := VisitSlot(At(slots, visit.lang), visit)], visits := visits + [visit])
    }
  }

  /** Every copy comes after the copies of the languages it inherits. */
  predicate BasesFirst(order: seq<Lang>, copies: map<Lang, Copy>, lang: Lang) {
    forall k | 0 <= k < |order| :: BasesAmong(order[..k], copies, order[k], lang)
  }

  /** Whatever `d` inherits that is going to be published is in `earlier`. */
  predicate BasesAmong(earlier: seq<Lang>, copies: map<Lang, Copy>, d: Lang, lang: Lang) {
    d in copies ==> forall p | p in copies[d].Parents(d == lang) && p in copies :: p in earlier
  }

  /** The disk is what the logged visits make of `start`, no language twice. */
  predicate Logged(start: Disk, w: Walk) {
    w.slots == AfterVisits(start, w.visits) && DistinctVisits(w.visits)
  }

  predicate OrderOk(w: Walk, run: RunId) {
    && (forall j, k | 0 <= j < k < |w.order| :: w.order[j] != w.order[k])
    && (forall d | d in w.order :: d in w.copies)
    && (forall d | d in w.copies :: d in w.order && d in w.staged && w.copies[d].writer == run && w.copies[d].complete)
  }

  /** `d` was gone through step by step, and has a copy waiting exactly if it had to be downloaded. */
  predicate WentThrough(start: Disk, req: Request, slots: Disk, copies: map<Lang, Copy>, d: Lang) {
    && Passes(start, req, d)
    && At(slots, d) == Found(start, req, d)
    && (d in copies <==> Downloads(start, req, d))
    && PreparedCopy(slots, copies, d) == CopyFor(start, req, d)
  }

  /** The state between steps; `open` are the languages whose parents are still being walked. */
  ghost predicate Sound(start: Disk, req: Request, w: Walk, open: set<Lang>) {
    && Logged(start, w)
    && w.staged == LangsOf(w.visits)
    && open <= w.staged && open !! w.copies.Keys
    && OrderOk(w, req.run)
    && (forall d | d in w.staged - open :: w.Settled(d, req.lang) && WentThrough(start, req, w.slots, w.copies, d))
  }

  /** What the walk leaves behind stays: nothing visited is visited, staged or written again. */
  ghost predicate Grows(w: Walk, after: Walk) {
    && w.staged <= after.staged
    && (forall d | d in w.copies :: d in after.copies && after.copies[d] == w.copies[d])
    && (forall d | d in w.staged :: At(after.slots, d) == At(w.slots, d) && (d in after.copies ==> d in w.copies))
    && w.visits <= after.visits
  }

  lemma GrowsOn(a: Walk, b: Walk, c: Walk)
    requires Grows(a, b) && Grows(b, c)
    ensures Grows(a, c)
  {
  }

  lemma SettledStays(start: Disk, req: Request, w: Walk, after: Walk, d: Lang)
    requires Grows(w, after) && d in w.staged
    requires w.Settled(d, req.lang) && WentThrough(start, req, w.slots, w.copies, d)
    ensures after.Settled(d, req.lang) && WentThrough(start, req, after.slots, after.copies, d)
  {
  }

  predicate SameCollected(w: Walk, after: Walk) {
    forall d | d in after.copies :: d in w.copies
  }

  /** Only languages on the disk or upstream can be visited without an error. */
  function Universe(start: Disk, req: Request): set<Lang> {
    start.Keys + req.script.Keys
  }

  lemma LeftToStage(start: Disk, req: Request, before: set<Lang>, after: set<Lang>, l: Lang)
    requires l in Universe(start, req) && l !in before && before + {l} <= after
    ensures |Universe(start, req) - after| < |Universe(start, req) - before|
  {
    var left := Universe(start, req) - before;
    assert Universe(start, req) - after <= left - {l};
    SubsetSize(Universe(start, req) - after, left - {l});
  }

  lemma {:induction false} SubsetSize<T>(a: set<T>, b: set<T>)
    requires a <= b
    ensures |a| <= |b|
  {
    if x :| x in a {
      SubsetSize(a - {x}, b - {x});
    }
  }

  lemma VisitIsLogged(start: Disk, req: Request, w: Walk, open: set<Lang>, visit: Visit)
    requires Sound(start, req, w, open) && visit.lang !in w.staged
    ensures Logged(start, w.Visited(visit))
    ensures At(w.slots, visit.lang) == At(start, visit.lang)
  {
    OneMoreVisit(start, w.visits, visit);
    forall v | v in w.visits
      ensures v.lang != visit.lang
    {
      LangsOfMembers(w.visits, v);
    }
    UnvisitedUntouched(start, w.visits, visit.lang);
  }

  lemma EnteredIsSound(start: Disk, req: Request, w: Walk, open: set<Lang>, visit: Visit)
    requires Sound(start, req, w, open) && visit.lang !in w.staged
    ensures var entered := w.Visited(visit).(staged := w.staged + {visit.lang});
            && Sound(start, req, entered, open + {visit.lang}) && Grows(w, entered)
            && SameCollected(w, entered)
  {
    var entered := w.Visited(visit).(staged := w.staged + {visit.lang});
    VisitIsLogged(start, req, w, open, visit);
    assert entered.visits[..|w.visits|] == w.visits;
    assert Grows(w, entered);
    forall d | d in entered.staged - (open + {visit.lang})
      ensures entered.Settled(d, req.lang) && WentThrough(start, req, entered.slots, entered.copies, d)
    {
      SettledStays(start, req, w, entered, d);
    }
  }

  /** What is known of a language once its own steps have gone through: the copy to go by. */
  predicate Decided(start: Disk, req: Request, slots: Disk, l: Lang, copy: Copy, downloads: bool) {
    && Passes(start, req, l)
    && At(slots, l) == Found(start, req, l)
    && downloads == Downloads(start, req, l)
    && CopyFor(start, req, l) == Some(copy)
  }

  lemma DecidedIsWhole(start: Disk, req: Request, slots: Disk, l: Lang, copy: Copy, downloads: bool)
    requires Decided(start, req, slots, l, copy, downloads)
    ensures copy.complete && (if downloads then copy.writer == req.run else At(slots, l).queries == Some(copy))
  {
  }

  lemma LeftIsSound(start: Disk, req: Request, w: Walk, open: set<Lang>, l: Lang, copy: Copy)
    requires Sound(start, req, w, open + {l}) && l !in open
    requires Decided(start, req, w.slots, l, copy, false) && copy.Parents(l == req.lang) <= w.staged
    ensures Sound(start, req, w, open) && l !in w.copies
  {
    assert l in open + {l};
    assert w.Settled(l, req.lang);
  }

  lemma PushedIsSound(start: Disk, req: Request, before: Walk, w: Walk, open: set<Lang>, l: Lang, copy: Copy)
    requires Sound(start, req, w, open + {l}) && l !in open
    requires Grows(before, w) && l !in before.staged
    requires Decided(start, req, w.slots, l, copy, true) && copy.Parents(l == req.lang) <= w.staged
    ensures var after := w.(order := w.order + [l], copies := w.copies[l := copy]);
            Sound(start, req, after, open) && Grows(before, after)
  {
    var after := w.(order := w.order + [l], copies := w.copies[l := copy]);
    assert l in w.staged && l !in w.copies;
    forall d | d in after.staged - open
      ensures after.Settled(d, req.lang) && WentThrough(start, req, after.slots, after.copies, d)
    {
      assert d != l ==> w.Settled(d, req.lang) && WentThrough(start, req, w.slots, w.copies, d);
    }
  }

  /** The copies collected so far are the ones the walk goes by, bases first. */
  ghost predicate Ordered(start: Disk, req: Request, w: Walk) {
    && BasesFirst(w.order, w.copies, req.lang)
    && forall d | d in w.copies :: CopyFor(start, req, d) == Some(w.copies[d])
  }

  /** What was collected on the way from `w` to `after` ranks below all that is open. */
  ghost predicate CollectedBelow(w: Walk, after: Walk, open: set<Lang>, rank: Lang -> nat) {
    forall d | d in after.copies && d !in w.copies :: Below(rank, d, open)
  }

  /** No copy collected so far inherits the language that is about to be pushed. */
  lemma NobodyInherits(start: Disk, req: Request, before: Walk, w: Walk, open: set<Lang>, l: Lang, rank: Lang -> nat,
                       d: Lang)
    requires Sound(start, req, before, open) && Grows(before, w) && l !in before.staged
    requires Ranked(start, req, rank) && Ordered(start, req, w) && CollectedBelow(before, w, open + {l}, rank)
    requires d in w.copies
    ensures l !in w.copies[d].Parents(d == req.lang)
  {
    if d in before.copies {
      assert before.Settled(d, req.lang);
    } else {
      assert Below(rank, d, open + {l}) && l in open + {l};
    }
  }

  /** A copy nobody before it inherits can be put last. */
  lemma PushedKeepsBasesFirst(order: seq<Lang>, copies: map<Lang, Copy>, l: Lang, copy: Copy, lang: Lang)
    requires BasesFirst(order, copies, lang) && l !in copies && l !in copy.Parents(l == lang)
    requires forall d :: d in order <==> d in copies
    requires forall d | d in copies :: l !in copies[d].Parents(d == lang)
    ensures BasesFirst(order + [l], copies[l := copy], lang)
  {
    forall k | 0 <= k < |order + [l]|
      ensures BasesAmong((order + [l])[..k], copies[l := copy], (order + [l])[k], lang)
    {
      if k < |order| {
        assert (order + [l])[..k] == order[..k];
        assert BasesAmong(order[..k], copies, order[k], lang);
      } else {
        assert (order + [l])[..k] == order;
      }
    }
  }

  lemma PushedAfterItsBases(start: Disk, req: Request, before: Walk, w: Walk, open: set<Lang>, l: Lang, copy: Copy,
                            rank: Lang -> nat)
    requires Sound(start, req, before, open) && Grows(before, w) && l !in before.staged
    requires Ranked(start, req, rank) && Ordered(start, req, w) && CollectedBelow(before, w, open + {l}, rank)
    requires OrderOk(w, req.run) && l !in w.copies && CopyFor(start, req, l) == Some(copy) && Below(rank, l, open)
    ensures var after := w.(order := w.order + [l], copies := w.copies[l := copy]);
            Ordered(start, req, after) && CollectedBelow(before, after, open, rank)
  {
    assert l !in copy.Parents(l == req.lang);
    forall d | d in w.copies
      ensures l !in w.copies[d].Parents(d == req.lang)
    {
      NobodyInherits(start, req, before, w, open, l, rank, d);
    }
    PushedKeepsBasesFirst(w.order, w.copies, l, copy, req.lang);
    var after := w.(order := w.order + [l], copies := w.copies[l := copy]);
    forall d | d in after.copies && d !in before.copies
      ensures Below(rank, d, open)
    {
      assert d != l ==> Below(rank, d, open + {l});
    }
  }

  lemma NothingVisited(start: Disk, req: Request, w: Walk, open: set<Lang>)
    requires Sound(start, req, w, open) && w.staged == {}
    ensures w.visits == []
  {
    SomeVisitSomeLang(w.visits);
  }

  lemma InUniverse(start: Disk, req: Request, w: Walk, visit: Visit)
    requires At(w.slots, visit.lang) == At(start, visit.lang)
    requires At(w.Visited(visit).slots, visit.lang).Complete() || req.StepOf(visit.lang).fetched.Some?
    ensures visit.lang in Universe(start, req)
  {
  }

  /** The loop over the parents of one language. */
  method StageParents(ghost start: Disk, req: Request, parents: set<Lang>, w: Walk, ghost open: set<Lang>,
                      ghost rank: Lang -> nat, ghost ranked: bool, ghost good: set<Lang>, ghost goes: bool)
    returns (ok: bool, after: Walk)
    requires goes ==> GoesThrough(start, req, good) && w.staged <= good && parents <= good
    requires Sound(start, req, w, open) && req.lang in w.staged
    requires ranked ==> Ranked(start, req, rank)
    requires ranked ==> Ordered(start, req, w) && forall p | p in parents :: Below(rank, p, open)
    ensures Logged(start, after) && w.visits <= after.visits
    ensures ok ==> Sound(start, req, after, open) && Grows(w, after) && parents <= after.staged
    ensures ok && ranked ==> Ordered(start, req, after) && CollectedBelow(w, after, open, rank)
    ensures goes ==> ok && after.staged <= good
    decreases |Universe(start, req) - w.staged|, 3
  {
    ok, after := true, w;
    var left := parents;
    while left != {}
      invariant ok && left <= parents && w.visits <= after.visits
      invariant Sound(start, req, after, open) && Grows(w, after)
      invariant parents - left <= after.staged
      invariant ranked ==> Ordered(start, req, after) && CollectedBelow(w, after, open, rank)
      invariant goes ==> after.staged <= good
    {
      var parent :| parent in left;
      ghost var reached := after;
      SubsetSize(Universe(start, req) - after.staged, Universe(start, req) - w.staged);
      ok, after := StageLanguage(start, req, parent, false, after, open, rank, ranked, good, goes);
      if !ok {
        return;
      }
      GrowsOn(w, reached, after);
      left := left - {parent};
    }
  }

  lemma EnteredInOrder(start: Disk, req: Request, w: Walk, visit: Visit, copy: Copy, open: set<Lang>, rank: Lang -> nat)
    requires Ranked(start, req, rank) && Ordered(start, req, w) && Below(rank, visit.lang, open)
    requires CopyFor(start, req, visit.lang) == Some(copy)
    ensures Ordered(start, req, w.Visited(visit).(staged := w.staged + {visit.lang}))
    ensures forall p | p in copy.Parents(visit.lang == req.lang) :: Below(rank, p, open + {visit.lang})
  {
  }

  lemma CollectedSince(w: Walk, entered: Walk, after: Walk, open: set<Lang>, fewer: set<Lang>, rank: Lang -> nat)
    requires SameCollected(w, entered) && CollectedBelow(entered, after, open, rank) && fewer <= open
    ensures CollectedBelow(w, after, open, rank) && CollectedBelow(w, after, fewer, rank)
  {
  }

  /** A downloaded copy takes its place after everything walked for it. */
  lemma DownloadedInOrder(start: Disk, req: Request, w: Walk, entered: Walk, after: Walk, open: set<Lang>, l: Lang,
                          copy: Copy, rank: Lang -> nat, ranked: bool)
    requires ranked ==> Ranked(start, req, rank)
    requires Sound(start, req, w, open) && l !in w.staged && SameCollected(w, entered)
    requires Sound(start, req, after, open + {l}) && Grows(w, after)
    requires CopyFor(start, req, l) == Some(copy)
    requires ranked ==>
               Ordered(start, req, after) && CollectedBelow(entered, after, open + {l}, rank) && Below(rank, l, open)
    ensures ranked ==>
              var pushed := after.(order := after.order + [l], copies := after.copies[l := copy]);
              Ordered(start, req, pushed) && CollectedBelow(w, pushed, open, rank)
  {
    if ranked {
      assert l in open + {l};
      CollectedSince(w, entered, after, open + {l}, open, rank);
      PushedAfterItsBases(start, req, w, after, open, l, copy, rank);
    }
  }

  /** Leaving a language: a downloaded copy is put after everything walked for it. */
  function Left(w: Walk, l: Lang, copy: Copy, downloads: bool): Walk {
    if downloads then w.(order := w.order + [l], copies := w.copies[l := copy]) else w
  }

  lemma LeftInOrder(start: Disk, req: Request, w: Walk, entered: Walk, after: Walk, open: set<Lang>, l: Lang,
                    copy: Copy, downloads: bool, rank: Lang -> nat, ranked: bool)
    requires ranked ==> Ranked(start, req, rank)
    requires Sound(start, req, w, open) && l !in w.staged && Grows(w, entered) && SameCollected(w, entered)
    requires l in entered.staged && Sound(start, req, after, open + {l}) && Grows(entered, after)
    requires Decided(start, req, entered.slots, l, copy, downloads) && copy.Parents(l == req.lang) <= after.staged
    requires ranked ==>
               Ordered(start, req, after) && CollectedBelow(entered, after, open + {l}, rank) && Below(rank, l, open)
    ensures var out := Left(after, l, copy, downloads);
            && Sound(start, req, out, open) && Grows(w, out) && (l in out.copies <==> downloads)
            && (ranked ==> Ordered(start, req, out) && CollectedBelow(w, out, open, rank))
  {
    GrowsOn(w, entered, after);
    if downloads {
      DownloadedInOrder(start, req, w, entered, after, open, l, copy, rank, ranked);
      PushedIsSound(start, req, w, after, open, l, copy);
    } else {
      LeftIsSound(start, req, after, open, l, copy);
      if ranked {
        CollectedSince(w, entered, after, open + {l}, open, rank);
      }
    }
  }

  /** A language whose copy is decided: walk its parents, then put it after them. */
  method StageCopy(ghost start: Disk, req: Request, visit: Visit, copy: Copy, downloads: bool, w: Walk,
                   ghost open: set<Lang>,
                   ghost rank: Lang -> nat, ghost ranked: bool, ghost good: set<Lang>, ghost goes: bool)
    returns (ok: bool, after: Walk)
    requires goes ==> GoesThrough(start, req, good) && w.staged <= good && visit.lang in good
    requires ranked ==> Ranked(start, req, rank)
    requires Sound(start, req, w, open) && visit.lang !in w.staged && visit.lang in Universe(start, req)
    requires visit.lang == req.lang || req.lang in w.staged
    requires Decided(start, req, w.Visited(visit).slots, visit.lang, copy, downloads)
    requires ranked ==> Ordered(start, req, w) && Below(rank, visit.lang, open)
    ensures Logged(start, after) && w.visits + [visit] <= after.visits
    ensures ok ==> Sound(start, req, after, open) && Grows(w, after) && visit.lang in after.staged
    ensures ok && ranked ==> Ordered(start, req, after) && CollectedBelow(w, after, open, rank)
    ensures ok ==> if downloads then
                     visit.lang in after.copies && after.order != [] && after.order[|after.order| - 1] == visit.lang
                   else visit.lang !in after.copies
    ensures goes ==> ok && after.staged <= good
    decreases |Universe(start, req) - w.staged|, 1
  {
    var l := visit.lang;
    after := w.Visited(visit).(staged := w.staged + {l});
    ghost var entered := after;
    EnteredIsSound(start, req, w, open, visit);
    if ranked {
      EnteredInOrder(start, req, w, visit, copy, open, rank);
    }
    LeftToStage(start, req, w.staged, after.staged, l);
    ok, after := StageParents(start, req, copy.Parents(l == req.lang), after, open + {l}, rank, ranked, good, goes);
    if !ok {
      return;
    }
    LeftInOrder(start, req, w, entered, after, open, l, copy, downloads, rank, ranked);
    after := Left(after, l, copy, downloads);
  }

  /** One language of the walk: `requested` for itself, otherwise as a parent. */
  method StageLanguage(ghost start: Disk, req: Request, l: Lang, requested: bool, w: Walk, ghost open: set<Lang>,
                       ghost rank: Lang -> nat, ghost ranked: bool, ghost good: set<Lang>, ghost goes: bool)
    returns (ok: bool, after: Walk)
    requires goes ==> GoesThrough(start, req, good) && w.staged <= good && l in good
    requires ranked ==> Ranked(start, req, rank)
    requires Sound(start, req, w, open)
    requires ranked ==> Ordered(start, req, w) && Below(rank, l, open)
    requires if requested then l == req.lang && w.staged == {} else req.lang in w.staged
    ensures Logged(start, after) && w.visits <= after.visits
    ensures ok ==> Sound(start, req, after, open) && Grows(w, after) && l in after.staged
    ensures ok && ranked ==> Ordered(start, req, after) && CollectedBelow(w, after, open, rank)
    ensures ok && requested ==>
              && (l in after.copies ==> after.order != [] && after.order[|after.order| - 1] == l)
              && (req.force ==> l in after.copies)
    ensures requested ==> var step := req.StepOf(l);
                          if step.nameIsSafe && step.clears then
                            after.visits != [] && after.visits[0] == Visit(l, step.recovers)
                          else after.visits == [] && !ok
    ensures goes ==> ok && after.staged <= good
    decreases |Universe(start, req) - w.staged|, 2
  {
    after, ok := w, false;
    if requested {
      NothingVisited(start, req, w, open);
    }
    var step := req.StepOf(l);
    if !step.nameIsSafe {
      return;
    }
    if l in w.staged {
      ok := true;
      return;
    }
    if !step.clears {
      return;
    }
    var visit := Visit(l, step.recovers);
    VisitIsLogged(start, req, w, open, visit);
    after := w.Visited(visit);
    if !step.prepares {
      return;
    }
    var found := At(after.slots, l);
    var downloads := !found.Complete() || (requested && req.force);
    if (if downloads then step.fetched.None? else !step.readable) {
      return;
    }
    var copy := if downloads then Copy(req.run, true, step.fetched.value.required, step.fetched.value.optional)
                else found.queries.value;
    InUniverse(start, req, w, visit);
    ok, after := StageCopy(start, req, visit, copy, downloads, w, open, rank, ranked, good, goes);
  }

  ghost predicate HandedOver(start: Disk, req: Request, slots: Disk, staged: StagedQueries) {
    forall d | d in staged.deps :: WentThrough(start, req, slots, staged.copies, d)
  }

  lemma HandedOverWhole(start: Disk, req: Request, w: Walk, handed: StagedQueries)
    requires Sound(start, req, w, {}) && req.lang in w.staged
    requires handed.copies == w.copies && handed.deps == w.staged
    ensures HandedOver(start, req, w.slots, handed) && handed.Stable(w.slots, req.lang)
    ensures GoesThrough(start, req, handed.deps)
  {
    forall d | d in handed.deps
      ensures w.Settled(d, req.lang) && WentThrough(start, req, w.slots, handed.copies, d)
      ensures handed.Prepared(w.slots, d) == w.Prepared(d)
    {
    }
  }

  /** Stage a language with everything it inherits. What is handed over is what the
      transaction needs: distinct copies of this run, the requested one last, bases
      before what inherits them; and as long as nobody interferes, complete and
      closed under inheritance. */
  method StageChain(req: Request, start: Disk, ghost good: set<Lang>)
    returns (staged: Option<StagedQueries>, slots: Disk, ghost visits: seq<Visit>)
    ensures GoesThrough(start, req, good) ==> staged.Some? && staged.value.deps <= good
    ensures staged.Some? ==> GoesThrough(start, req, staged.value.deps) && HandedOver(start, req, slots, staged.value)
    ensures slots == AfterVisits(start, visits) && DistinctVisits(visits)
    ensures var step := req.StepOf(req.lang);
            if step.nameIsSafe && step.clears then visits != [] && visits[0] == Visit(req.lang, step.recovers)
            else visits == [] && staged.None?
    ensures staged.Some? ==>
              && staged.value.ValidFor(req.lang, req.force, req.run)
              && staged.value.Stable(slots, req.lang)
              && staged.value.deps == LangsOf(visits)
    ensures staged.Some? && Acyclic(start, req) ==> BasesFirst(staged.value.order, staged.value.copies, req.lang)
  {
    ghost var rank: Lang -> nat := l => 0;
    ghost var ranked := Acyclic(start, req);
    if ranked {
      rank :| Ranked(start, req, rank);
    }
    ghost var goes := GoesThrough(start, req, good);
    var ok, walk := StageLanguage(start, req, req.lang, true, Walk(start, {}, [], map[], []), {}, rank, ranked, good,
                                  goes);
    slots, visits := walk.slots, walk.visits;
    if !ok {
      return None, slots, visits;
    }
    var fetched := req.StepOf(req.lang).fetched;
    var files := if req.lang in walk.copies && fetched.Some? then fetched.value.files else [];
    var handed := StagedQueries(walk.order, walk.copies, walk.staged, files);
    HandedOverWhole(start, req, walk, handed);
    return Some(handed), slots, visits;
  }
}
