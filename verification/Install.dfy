/**
 One install, run on its own: the transaction that publishes a parser and its
 queries together or not at all. The outcome of every I/O call is an input, so
 the contracts hold for every combination of step outcomes.
 */
module Installer {
  import opened LanguageSlot
  import opened Staging
  import opened Wrappers

  datatype InstallError =
    | InvalidName | StagingFailed | CompileFailed | LockFailed
    | WasUninstalled | DependencyChanged | QueryPublishFailed(stranded: bool)
    | ParserPublishFailed | ParserRemoved

  datatype InstallResult = InstallResult(
    parserPath: Option<Lang>, queriesPath: Option<Lang>,
    parserError: Option<InstallError>, queriesError: Option<InstallError>,
    rollbackResidue: Option<RollbackResidue>, filesDownloaded: seq<string>)
  {
    predicate IsSuccess() {
      parserError.None? && queriesError.None?
    }
  }

  const NOTHING_YET := InstallResult(None, None, None, None, None, [])

  /** The outcome of every I/O call one install makes. */
  datatype Outcomes = Outcomes(
    script: map<Lang, Step>,
    compiles: bool,
    locks: bool,
    publish: map<Lang, PublishFault>,
    parser: ParserFault,
    undo: UndoFault,
    discardFails: set<Lang>)
  {
    function Asking(lang: Lang, force: bool, run: RunId): Request {
      Request(lang, force, run, script)
    }

    function PublishFaultOf(l: Lang): PublishFault {
      if l in publish then publish[l] else PublishWorks
    }
  }

  /** A publish that failed part-way: its error, and what its own rollback left. */
  datatype PublishFailure = PublishFailure(error: InstallError, residue: RollbackOutcome)

  /** Exactly the languages in `published` have been published over. */
  ghost predicate PublishedExactly(before: Disk, after: Disk, published: set<Lang>, copies: map<Lang, Copy>,
                                   run: RunId) {
    && published <= copies.Keys
    && (forall d :: d !in published ==> At(after, d) == At(before, d))
    && (forall d :: d in published ==> PublishedOver(At(before, d), At(after, d), copies[d], run))
  }

  /** What a rollback leaves: the requested language as its outcome says, every
      base language as published, everything else untouched. */
  ghost predicate RolledBack(before: Disk, after: Disk, published: set<Lang>, copies: map<Lang, Copy>, lang: Lang,
                             run: RunId, outcome: RollbackOutcome) {
    && published <= copies.Keys
    && UndoneTo(At(before, lang), At(after, lang), run, run, outcome)
    && (!outcome.Undone? ==> lang in published)
    && (forall d :: d !in published ==> At(after, d) == At(before, d))
    && (forall d :: d != lang && d in published ==>
          && At(after, d).queries == Some(copies[d])
          && At(after, d).parser == At(before, d).parser && At(after, d).tombstone == At(before, d).tombstone)
  }

  predicate SameButBackups(before: Slot, after: Slot) {
    after.queries == before.queries && after.parser == before.parser && after.tombstone == before.tombstone
  }

  /** In the middle of a rollback: `left` is still as it was, the rest has been dealt with. */
  ghost predicate RollingBack(start: Disk, now: Disk, published: set<Lang>, left: set<Lang>, lang: Lang,
                              undoneTo: (Slot, RollbackOutcome), outcome: RollbackOutcome) {
    && left <= published
    && (forall d :: d !in published || d in left ==> At(now, d) == At(start, d))
    && (forall d :: d != lang ==> SameButBackups(At(start, d), At(now, d)))
    && (if lang in published - left then (At(now, lang), outcome) == undoneTo else outcome == Undone)
  }

  lemma DiscardsOneMore(start: Disk, now: Disk, published: set<Lang>, left: set<Lang>, lang: Lang,
                        undoneTo: (Slot, RollbackOutcome), outcome: RollbackOutcome, d: Lang, run: RunId, fails: bool)
    requires RollingBack(start, now, published, left, lang, undoneTo, outcome) && d in left && d != lang
    ensures RollingBack(start, now[d := DiscardBackup(At(now, d), run, fails)], published, left - {d},
                        lang, undoneTo, outcome)
  {
  }

  lemma UndoesRequested(start: Disk, now: Disk, published: set<Lang>, left: set<Lang>, lang: Lang,
                        undoneTo: (Slot, RollbackOutcome), outcome: RollbackOutcome)
    requires RollingBack(start, now, published, left, lang, undoneTo, outcome) && lang in left
    ensures RollingBack(start, now[lang := undoneTo.0], published, left - {lang}, lang, undoneTo, undoneTo.1)
    ensures At(now, lang) == At(start, lang)
  {
  }

  /** Where a rollback ends once every published entry has been dealt with. */
  lemma RollbackSettled(before: Disk, start: Disk, after: Disk, published: set<Lang>, copies: map<Lang, Copy>,
                        lang: Lang, run: RunId, fault: UndoFault, outcome: RollbackOutcome)
    requires forall d | d in published :: run !in At(before, d).backups
    requires forall d | d in copies :: copies[d].writer == run
    requires PublishedExactly(before, start, published, copies, run)
    requires lang in published ==> !At(before, lang).tombstone
    requires forall d :: d !in published ==> At(after, d) == At(start, d)
    requires forall d :: d != lang ==> SameButBackups(At(start, d), At(after, d))
    requires if lang in published then (At(after, lang), outcome) == UndoPublish(At(start, lang), run, fault)
             else outcome == Undone
    ensures RolledBack(before, after, published, copies, lang, run, outcome)
  {
    if lang in published {
      PublishedThenUndone(At(before, lang), At(start, lang), copies[lang], run, fault);
    }
  }

  /** One more entry published over, or found good enough. */
  lemma PublishedOneMore(before: Disk, slots: Disk, published: set<Lang>, copies: map<Lang, Copy>, run: RunId, d: Lang,
                         force: bool, fault: PublishFault)
    requires PublishedExactly(before, slots, published, copies, run) && d in copies && d !in published
    requires PublishQueries(At(slots, d), copies[d], force, run, fault).1.Published?
    ensures var after := slots[d := PublishQueries(At(slots, d), copies[d], force, run, fault).0];
            PublishedExactly(before, after, published + {d}, copies, run)
  {
    var after := slots[d := PublishQueries(At(slots, d), copies[d], force, run, fault).0];
    assert forall e :: e != d ==> At(after, e) == At(slots, e);
  }

  /** A publish that fails strands the live copy or leaves its slot alone. */
  lemma PublishedNoMore(before: Disk, slots: Disk, published: set<Lang>, copies: map<Lang, Copy>, run: RunId, d: Lang,
                        force: bool, fault: PublishFault)
    requires PublishedExactly(before, slots, published, copies, run) && d in copies && d !in published
    requires !PublishQueries(At(slots, d), copies[d], force, run, fault).1.Published?
    ensures var (slot, outcome) := PublishQueries(At(slots, d), copies[d], force, run, fault);
            var stranded := if outcome == PublishFailed(true) then Some(d) else None;
            && (stranded.Some? ==> At(before, d).queries.Some?)
            && PublishedExactly(StrandedAt(before, stranded, run), slots[d := slot], published, copies, run)
  {
    var (slot, outcome) := PublishQueries(At(slots, d), copies[d], force, run, fault);
    UnpublishedLeavesSlot(At(slots, d), copies[d], force, run, fault);
    var after := slots[d := slot];
    assert forall e :: e != d ==> At(after, e) == At(slots, e);
  }

  predicate CoveredBy(slots: Disk, d: Lang, deps: set<Lang>, lang: Lang) {
    IsCovered(At(slots, d).queries, d == lang, deps)
  }

  predicate AllCovered(slots: Disk, ds: seq<Lang>, deps: set<Lang>, lang: Lang) {
    forall d | d in ds :: CoveredBy(slots, d, deps, lang)
  }

  lemma CoveredOneMore(slots: Disk, after: Disk, ds: seq<Lang>, d: Lang, deps: set<Lang>, lang: Lang)
    requires AllCovered(slots, ds, deps, lang) && d !in ds && CoveredBy(after, d, deps, lang)
    requires forall e :: e != d ==> At(after, e) == At(slots, e)
    ensures AllCovered(after, ds + [d], deps, lang)
  {
    forall e | e in ds + [d]
      ensures CoveredBy(after, e, deps, lang)
    {
      assert e != d ==> e in ds;
    }
  }

  lemma RequestedComesLast(staged: StagedQueries, lang: Lang, run: RunId, k: nat)
    requires staged.ValidFor(lang, false, run) && k < |staged.order|
    ensures lang !in staged.order[..k]
  {
  }

  /** With every entry settled and the rest rechecked, the whole chain is on disk. */
  lemma ChainPublished(before: Disk, slots: Disk, published: set<Lang>, staged: StagedQueries, lang: Lang, run: RunId)
    requires staged.ValidFor(lang, false, run) && staged.Stable(before, lang)
    requires PublishedExactly(before, slots, published, staged.copies, run)
    requires forall d :: d in staged.order ==> CoveredBy(slots, d, staged.deps, lang)
    ensures ChainOnDisk(slots, staged.deps, lang)
  {
    forall d | d in staged.deps
      ensures CoveredBy(slots, d, staged.deps, lang)
    {
      if d !in staged.copies {
        assert staged.Prepared(before, d) == At(slots, d).queries;
      }
    }
  }

  /** `before` once a publish of `d` has moved its live copy aside and lost the race to put anything back. */
  function StrandedAt(before: Disk, d: Option<Lang>, run: RunId): Disk {
    if d.Some? && At(before, d.value).queries.Some? then
      var found := At(before, d.value);
      before[d.value := found.(queries := None, backups := found.backups[run := found.queries.value])]
    else before
  }

  /** Every dependency is on disk, complete, and inherits only dependencies. */
  predicate ChainOnDisk(slots: Disk, deps: set<Lang>, lang: Lang) {
    forall d | d in deps :: CoveredBy(slots, d, deps, lang)
  }

  /** The one way a failed install loses something it does not report: on Windows,
      a parser swap that can rename neither the new file in nor the old one back. */
  predicate ParserLost(found: Slot, parserStaged: bool, windows: bool, fault: ParserFault) {
    parserStaged && windows && fault.DisplacedLost? && found.parser.ParserFile?
  }

  function ParserLeft(found: Slot, lost: bool): Parser {
    if lost then NoParser else found.parser
  }

  /** What the reported residue means on disk. */
  ghost predicate ResidueIsTrue(found: Disk, after: Disk, lang: Lang, run: RunId, residue: Option<RollbackResidue>) {
    match residue
    case None => true
    case Some(NewQueriesLive) => At(after, lang).queries.Some? && At(after, lang).queries.value.writer == run
    case Some(QueriesStranded) =>
      exists d :: At(found, d).queries.Some? && At(after, d).queries.None?
               && run in At(after, d).backups && At(after, d).backups[run] == At(found, d).queries.value
  }

  /** What an install that failed with this residue left, exactly: the parser is
      the one it found unless that was lost, and so are the queries unless a
      residue is reported. */
  ghost predicate FailureIsHonest(found: Disk, after: Disk, lang: Lang, run: RunId, lost: bool,
                                  residue: Option<RollbackResidue>) {
    && At(after, lang).parser == ParserLeft(At(found, lang), lost)
    && (residue.None? ==> At(after, lang).queries == At(found, lang).queries)
    && ResidueIsTrue(found, after, lang, run, residue)
    && (forall d :: d != lang ==> At(after, d).parser == At(found, d).parser)
  }

  /** Some language had queries and has none now. */
  ghost predicate QueriesGone(found: Disk, after: Disk) {
    exists d :: At(found, d).queries.Some? && At(after, d).queries.None?
  }

  /** The queries could not all be published: stranded queries are reported exactly
      when some language lost its live copy to a backup. */
  lemma FailedPublishIsHonest(found: Disk, after: Disk, published: set<Lang>, copies: map<Lang, Copy>, lang: Lang,
                              run: RunId, stranded: Option<Lang>, outcome: RollbackOutcome)
    requires RolledBack(StrandedAt(found, stranded, run), after, published, copies, lang, run, outcome)
    requires lang !in published
    requires stranded.Some? ==> At(found, stranded.value).queries.Some? && stranded.value !in published
    ensures FailureIsHonest(found, after, lang, run, false, if stranded.Some? then Some(QueriesStranded) else None)
    ensures stranded.Some? <==> QueriesGone(found, after)
    ensures outcome.Undone?
  {
    var reached := StrandedAt(found, stranded, run);
    if stranded.Some? {
      assert At(after, stranded.value) == At(reached, stranded.value);
    }
    forall d | d != lang
      ensures At(after, d).parser == At(found, d).parser
    {
      assert At(reached, d).parser == At(found, d).parser;
    }
  }

  /** The parser could not be published, or was gone, and everything was rolled back. */
  lemma FailedParserIsHonest(found: Disk, reached: Disk, after: Disk, published: set<Lang>, copies: map<Lang, Copy>,
                             lang: Lang, run: RunId, lost: bool, outcome: RollbackOutcome)
    requires reached == found[lang := At(found, lang).(parser := ParserLeft(At(found, lang), lost))]
    requires RolledBack(reached, after, published, copies, lang, run, outcome)
    ensures FailureIsHonest(found, after, lang, run, lost, ResidueOf(outcome))
  {
    assert forall d :: d != lang ==> At(reached, d) == At(found, d);
    if outcome.PreviousQueriesStranded? {
      assert At(after, lang).backups[run] == At(found, lang).queries.value;
    }
  }

  /** The lost parser, step by step: the queries are published and undone again,
      nothing is reported, and the parser that was there is gone. */
  lemma WindowsSwapLosesParser()
    ensures var found := Slot(Some(Copy(0, true, {}, {})), ParserFile(0), false, map[]);
            var (published, outcome) := PublishQueries(found, Copy(1, true, {}, {}), true, 1, PublishWorks);
            var (swapped, ok) := PublishParser(published, 1, true, DisplacedLost);
            var (after, undone) := UndoPublish(swapped, 1, UndoWorks);
            outcome.Published? && !ok && ResidueOf(undone).None? && after == found.(parser := NoParser)
  {
    var found := Slot(Some(Copy(0, true, {}, {})), ParserFile(0), false, map[]);
    var published := PublishQueries(found, Copy(1, true, {}, {}), true, 1, PublishWorks).0;
    assert published.backups - {1} == found.backups;
  }

  /** A requested language whose stranded queries staging brings back, after which
      the download may fail: the queries are there now, and were not before. */
  lemma StagingBringsQueriesBack()
    ensures var stranded := Copy(7, true, {}, {});
            var found: Disk := map[3 := Slot(None, NoParser, true, map[7 := stranded])];
            At(found, 3).queries.None? && At(AfterVisits(found, [Visit(3, Some(7))]), 3).queries == Some(stranded)
  {
    var visits := [Visit(3, Some(7))];
    assert visits[1..] == [];
  }

  /** Whether staging brings back queries of the requested language that an earlier
      run stranded: it is visited, nothing is live, and recovery picks a complete copy. */
  predicate RecoversStranded(found: Slot, step: Step) {
    && step.nameIsSafe && step.clears
    && step.recovers.Some? && Recoverable(found.(tombstone := false), step.recovers.value)
  }

  lemma RequestedRecovers(found: Disk, visits: seq<Visit>, lang: Lang, step: Step)
    requires DistinctVisits(visits)
    requires if step.nameIsSafe && step.clears then visits != [] && visits[0] == Visit(lang, step.recovers)
             else visits == []
    ensures At(AfterVisits(found, visits), lang).queries != At(found, lang).queries <==>
              RecoversStranded(At(found, lang), step)
  {
    VisitsChangeQueriesIff(found, visits, lang);
    if visits != [] {
      assert visits[0] in visits;
      assert forall v :: v in visits && v.lang == lang ==> v == visits[0];
    }
  }

  /** The disk as the parser step left it, seen from before the queries were published. */
  lemma ReachedWithParser(found: Disk, start: Disk, now: Disk, published: set<Lang>, copies: map<Lang, Copy>,
                          lang: Lang, run: RunId)
    requires PublishedExactly(found, start, published, copies, run)
    requires now == start || now == start[lang := At(start, lang).(parser := At(now, lang).parser)]
    requires forall d :: run !in At(found, d).backups
    ensures var reached := found[lang := At(found, lang).(parser := At(now, lang).parser)];
            && PublishedExactly(reached, now, published, copies, run)
            && (forall d :: run !in At(reached, d).backups)
            && At(reached, lang).tombstone == At(found, lang).tombstone
            && At(start, lang).parser == At(found, lang).parser
  {
    assert At(start, lang).parser == At(found, lang).parser;
    forall d | d != lang
      ensures At(now, d) == At(start, d)
    {
    }
  }

  // ---------------------------------------------------------------- when an install succeeds

  /** An entry is settled by publishing it, or by a complete copy it yields to that inherits nothing new. */
  predicate EntrySettles(found: Slot, forced: bool, requested: bool, deps: set<Lang>, fault: PublishFault) {
    && !fault.Untouched?
    && if Yields(found, forced) then found.queries.value.Parents(requested) <= deps
       else !found.tombstone && fault.PublishWorks?
  }

  predicate EntryGoesOn(found: Slot, outcome: PublishOutcome, requested: bool, deps: set<Lang>) {
    || outcome.Published?
    || (outcome.AlreadyComplete? && found.queries.Some? && found.queries.value.Parents(requested) <= deps)
  }

  predicate Yields(found: Slot, forced: bool) {
    !forced && found.Complete()
  }

  predicate AllSettle(slots: Disk, ds: seq<Lang>, deps: set<Lang>, lang: Lang, claimed: bool, o: Outcomes) {
    forall d | d in ds :: EntrySettles(At(slots, d), d == lang && claimed, d == lang, deps, o.PublishFaultOf(d))
  }

  predicate ParserSettles(found: Parser, parserStaged: bool, fault: ParserFault) {
    if parserStaged then !found.ParserDirectory? && fault.ParserWorks? else found.ParserFile?
  }

  function ParserErrorOf(found: Parser, parserStaged: bool, fault: ParserFault): Option<InstallError> {
    if ParserSettles(found, parserStaged, fault) then None
    else Some(if parserStaged then ParserPublishFailed else ParserRemoved)
  }

  function ParserSettled(found: Parser, parserStaged: bool, run: RunId): Parser {
    if parserStaged then ParserFile(run) else found
  }

  predicate NeedsParser(found: Disk, req: Request) {
    req.force || !At(found, req.lang).parser.ParserFile?
  }

  ghost predicate CanStage(found: Disk, req: Request) {
    exists good :: GoesThrough(found, req, good)
  }

  /** Staging goes through, and so does publishing every language it has to download. */
  ghost predicate PublishedWithin(found: Disk, req: Request, o: Outcomes, good: set<Lang>) {
    && GoesThrough(found, req, good)
    && forall l | l in good && Downloads(found, req, l) :: o.PublishFaultOf(l).PublishWorks?
  }

  ghost predicate CanPublish(found: Disk, req: Request, o: Outcomes) {
    exists good :: PublishedWithin(found, req, o, good)
  }

  /** The install gets as far as the parser: everything before it goes through. */
  ghost predicate ReachesParser(found: Disk, req: Request, o: Outcomes) {
    (NeedsParser(found, req) ==> o.compiles) && o.locks && CanPublish(found, req, o)
  }

  ghost predicate Succeeds(found: Disk, req: Request, o: Outcomes) {
    ReachesParser(found, req, o) && ParserSettles(At(found, req.lang).parser, NeedsParser(found, req), o.parser)
  }

  /** The two errors of an install on its own, from the disk it finds and the outcomes of its steps. */
  ghost predicate EndsWith(found: Disk, req: Request, o: Outcomes, parserError: Option<InstallError>,
                           queriesError: Option<InstallError>) {
    if !req.StepOf(req.lang).nameIsSafe then parserError == Some(InvalidName) && queriesError == Some(InvalidName)
    else if !CanStage(found, req) then parserError.None? && queriesError == Some(StagingFailed)
    else if NeedsParser(found, req) && !o.compiles then parserError == Some(CompileFailed) && queriesError.None?
    else if !o.locks then parserError.None? && queriesError == Some(LockFailed)
    else if !CanPublish(found, req, o) then
      parserError.None? && queriesError.Some? && queriesError.value.QueryPublishFailed?
    else if Succeeds(found, req, o) then parserError.None? && queriesError.None?
    else parserError == Some(ParserPublishFailed) && queriesError.None?
  }

  /** An entry settles exactly when publishing says so. */
  lemma SettlesAsPublished(found: Slot, copy: Copy, forced: bool, requested: bool, deps: set<Lang>, run: RunId,
                           fault: PublishFault)
    ensures var outcome := PublishQueries(found, copy, forced, run, fault).1;
            && (EntrySettles(found, forced, requested, deps, fault) <==>
                  EntryGoesOn(found, outcome, requested, deps))
            && (outcome.AlreadyComplete? ==> Yields(found, forced))
            && (outcome.Uninstalled? ==> found.tombstone)
  {
  }

  /** With nothing else running, no entry yields, and all settle iff the downloads can be published. */
  lemma SettlesAlone(found: Disk, req: Request, slots: Disk, staged: StagedQueries, claimed: bool, o: Outcomes)
    requires HandedOver(found, req, slots, staged) && staged.ValidFor(req.lang, req.force, req.run)
    requires req.force ==> claimed
    ensures AllSettle(slots, staged.order, staged.deps, req.lang, claimed, o) <==>
              forall l | l in staged.deps && Downloads(found, req, l) :: o.PublishFaultOf(l).PublishWorks?
    ensures forall d | d in staged.order :: !Yields(At(slots, d), d == req.lang && claimed)
    ensures forall d | d in staged.deps :: !At(slots, d).tombstone
  {
    forall d | d in staged.deps
      ensures d in staged.order <==> Downloads(found, req, d)
      ensures !At(slots, d).tombstone && At(slots, d) == Found(found, req, d)
    {
      assert WentThrough(found, req, slots, staged.copies, d);
    }
  }

  /** What is handed over is the least set that staging goes through, so it alone decides. */
  lemma LeastChainDecides(found: Disk, req: Request, o: Outcomes, deps: set<Lang>, good: set<Lang>)
    requires GoesThrough(found, req, deps)
    requires CanPublish(found, req, o) ==> PublishedWithin(found, req, o, good) && deps <= good
    ensures CanStage(found, req)
    ensures CanPublish(found, req, o) <==>
              forall l | l in deps && Downloads(found, req, l) :: o.PublishFaultOf(l).PublishWorks?
  {
    if forall l | l in deps && Downloads(found, req, l) :: o.PublishFaultOf(l).PublishWorks? {
      assert PublishedWithin(found, req, o, deps);
    }
  }

  /** A set to measure the walk by: one the install can publish within, or at least stage within. */
  ghost function ChainFor(found: Disk, req: Request, o: Outcomes): (good: set<Lang>)
    ensures CanStage(found, req) ==> GoesThrough(found, req, good)
    ensures CanPublish(found, req, o) ==> PublishedWithin(found, req, o, good)
  {
    if CanPublish(found, req, o) then
      var good :| PublishedWithin(found, req, o, good); good
    else if CanStage(found, req) then
      var good :| GoesThrough(found, req, good); good
    else {}
  }

  /** In the middle of publishing: the first `k` entries are settled, the rest untouched. */
  ghost predicate Publishing(before: Disk, slots: Disk, published: set<Lang>, staged: StagedQueries, k: nat,
                             lang: Lang, claimed: bool, run: RunId, o: Outcomes)
    requires k <= |staged.order|
  {
    && PublishedExactly(before, slots, published, staged.copies, run)
    && (forall d | d in published :: d in staged.order[..k])
    && AllCovered(slots, staged.order[..k], staged.deps, lang)
    && AllSettle(before, staged.order[..k], staged.deps, lang, claimed, o)
    && AllPublished(before, staged.order[..k], published, lang, claimed)
  }

  /** Every entry was published, or found a copy to yield to. */
  predicate AllPublished(before: Disk, ds: seq<Lang>, published: set<Lang>, lang: Lang, claimed: bool) {
    forall d | d in ds :: d in published <==> !Yields(At(before, d), d == lang && claimed)
  }

  /** The queries a transaction leaves: its copies, but where a complete copy was found it yields to. */
  ghost predicate QueriesLeft(before: Disk, after: Disk, staged: StagedQueries, lang: Lang, claimed: bool) {
    forall d :: At(after, d).queries ==
      if d in staged.copies && !Yields(At(before, d), d == lang && claimed) then Some(staged.copies[d])
      else At(before, d).queries
  }

  lemma PublishedIsLeft(before: Disk, after: Disk, published: set<Lang>, staged: StagedQueries, lang: Lang,
                        claimed: bool, run: RunId)
    requires staged.ValidFor(lang, false, run) && PublishedExactly(before, after, published, staged.copies, run)
    requires AllPublished(before, staged.order, published, lang, claimed)
    ensures QueriesLeft(before, after, staged, lang, claimed)
  {
  }

  /** An install on its own leaves every language of the chain with the copy the walk went by. */
  lemma ChainIsLeft(found: Disk, req: Request, visits: seq<Visit>, slots: Disk, after: Disk, staged: StagedQueries,
                    claimed: bool)
    requires HandedOver(found, req, slots, staged) && staged.ValidFor(req.lang, req.force, req.run)
    requires req.force ==> claimed
    requires slots == AfterVisits(found, visits) && staged.deps == LangsOf(visits)
    requires QueriesLeft(slots, after, staged, req.lang, claimed)
    ensures forall l :: At(after, l).queries ==
              if l in LangsOf(visits) then CopyFor(found, req, l) else At(found, l).queries
  {
    forall l
      ensures At(after, l).queries == if l in LangsOf(visits) then CopyFor(found, req, l) else At(found, l).queries
    {
      if l in staged.deps {
        assert WentThrough(found, req, slots, staged.copies, l);
      } else {
        forall v | v in visits
          ensures v.lang != l
        {
          LangsOfMembers(visits, v);
        }
        UnvisitedUntouched(found, visits, l);
      }
    }
  }

  /** The next entry decides whether settling can go on. */
  lemma SettlesOneMore(before: Disk, staged: StagedQueries, k: nat, lang: Lang, claimed: bool, run: RunId, o: Outcomes)
    requires staged.ValidFor(lang, false, run) && k < |staged.order| && !At(before, staged.order[k]).tombstone
    requires AllSettle(before, staged.order[..k], staged.deps, lang, claimed, o)
    ensures var d := staged.order[k];
            var forced, fault := d == lang && claimed, o.PublishFaultOf(d);
            var outcome := PublishQueries(At(before, d), staged.copies[d], forced, run, fault).1;
            && (if EntryGoesOn(At(before, d), outcome, d == lang, staged.deps)
                then AllSettle(before, staged.order[..k + 1], staged.deps, lang, claimed, o)
                else !AllSettle(before, staged.order, staged.deps, lang, claimed, o))
            && (outcome.AlreadyComplete? ==> Yields(At(before, d), d == lang && claimed))
            && !outcome.Uninstalled?
  {
    var d := staged.order[k];
    assert staged.order[..k + 1] == staged.order[..k] + [d];
    SettlesAsPublished(At(before, d), staged.copies[d], d == lang && claimed, d == lang, staged.deps, run,
                       o.PublishFaultOf(d));
  }

  lemma AllPublishedOneMore(before: Disk, ds: seq<Lang>, published: set<Lang>, d: Lang, lang: Lang, claimed: bool)
    requires AllPublished(before, ds, published, lang, claimed) && d !in ds
    requires forall e | e in published :: e in ds
    requires !Yields(At(before, d), d == lang && claimed)
    ensures AllPublished(before, ds + [d], published + {d}, lang, claimed)
    ensures forall e | e in published + {d} :: e in ds + [d]
  {
  }

  /** One more entry published: publishing goes on. */
  lemma PublishingOneMore(before: Disk, slots: Disk, published: set<Lang>, staged: StagedQueries, k: nat, lang: Lang,
                          claimed: bool, run: RunId, o: Outcomes)
    requires staged.ValidFor(lang, false, run) && staged.Stable(before, lang) && k < |staged.order|
    requires Publishing(before, slots, published, staged, k, lang, claimed, run, o)
    requires AllSettle(before, staged.order[..k + 1], staged.deps, lang, claimed, o)
    requires var d := staged.order[k];
             PublishQueries(At(slots, d), staged.copies[d], d == lang && claimed, run, o.PublishFaultOf(d)).1.Published?
    ensures var d := staged.order[k];
            var forced, fault := d == lang && claimed, o.PublishFaultOf(d);
            var slot := PublishQueries(At(slots, d), staged.copies[d], forced, run, fault).0;
            Publishing(before, slots[d := slot], published + {d}, staged, k + 1, lang, claimed, run, o)
  {
    var d, ds := staged.order[k], staged.order[..k];
    assert d !in ds && staged.order[..k + 1] == ds + [d];
    assert staged.Prepared(before, d) == Some(staged.copies[d]);
    var slot := PublishQueries(At(slots, d), staged.copies[d], d == lang && claimed, run, o.PublishFaultOf(d)).0;
    PublishedOneMore(before, slots, published, staged.copies, run, d, d == lang && claimed, o.PublishFaultOf(d));
    CoveredOneMore(slots, slots[d := slot], ds, d, staged.deps, lang);
    AllPublishedOneMore(before, ds, published, d, lang, claimed);
  }

  /** One more entry found complete: publishing goes on. */
  lemma YieldingOneMore(before: Disk, slots: Disk, published: set<Lang>, staged: StagedQueries, k: nat, lang: Lang,
                        claimed: bool, run: RunId, o: Outcomes)
    requires staged.ValidFor(lang, false, run) && k < |staged.order|
    requires Publishing(before, slots, published, staged, k, lang, claimed, run, o)
    requires AllSettle(before, staged.order[..k + 1], staged.deps, lang, claimed, o)
    requires Yields(At(slots, staged.order[k]), staged.order[k] == lang && claimed)
    ensures Publishing(before, slots, published, staged, k + 1, lang, claimed, run, o)
  {
    var d, ds := staged.order[k], staged.order[..k];
    assert d !in ds && staged.order[..k + 1] == ds + [d];
    CoveredOneMore(slots, slots, ds, d, staged.deps, lang);
  }

  /** With every entry dealt with, the whole chain is on disk. */
  lemma PublishingEnds(before: Disk, slots: Disk, published: set<Lang>, staged: StagedQueries, lang: Lang,
                       claimed: bool, run: RunId, o: Outcomes)
    requires staged.ValidFor(lang, false, run) && staged.Stable(before, lang)
    requires Publishing(before, slots, published, staged, |staged.order|, lang, claimed, run, o)
    ensures AllSettle(before, staged.order, staged.deps, lang, claimed, o)
    ensures PublishedExactly(before, slots, published, staged.copies, run) && ChainOnDisk(slots, staged.deps, lang)
    ensures AllPublished(before, staged.order, published, lang, claimed)
  {
    assert staged.order[..|staged.order|] == staged.order;
    ChainPublished(before, slots, published, staged, lang, run);
  }

  /** The disk an install ends on: its chain and the other parsers are as they were before the commit. */
  lemma CommittedIsWhole(before: Disk, start: Disk, now: Disk, published: set<Lang>, copies: map<Lang, Copy>,
                         deps: set<Lang>, lang: Lang, run: RunId)
    requires PublishedExactly(before, start, published, copies, run) && ChainOnDisk(start, deps, lang)
    requires forall d :: At(now, d).queries == At(start, d).queries
    requires forall d :: d != lang ==> At(now, d).parser == At(start, d).parser
    ensures ChainOnDisk(now, deps, lang)
    ensures forall d :: d != lang ==> At(now, d).parser == At(before, d).parser
  {
    forall d | d in deps
      ensures CoveredBy(now, d, deps, lang)
    {
      assert CoveredBy(start, d, deps, lang);
    }
  }

  class DataDirectory {
    var slots: Disk
    const windows: bool

    constructor (slots: Disk, windows: bool)
      ensures this.slots == slots && this.windows == windows
    {
      this.slots := slots;
      this.windows := windows;
    }

    /** Stage the language and everything it inherits. */
    method StageQueries(lang: Lang, force: bool, run: RunId, o: Outcomes, ghost good: set<Lang>)
      returns (staged: Option<StagedQueries>, ghost visits: seq<Visit>)
      modifies this`slots
      ensures GoesThrough(old(slots), o.Asking(lang, force, run), good) ==> staged.Some? && staged.value.deps <= good
      ensures staged.Some? ==>
                && GoesThrough(old(slots), o.Asking(lang, force, run), staged.value.deps)
                && HandedOver(old(slots), o.Asking(lang, force, run), slots, staged.value)
                && staged.value.Stable(slots, lang)
      ensures slots == AfterVisits(old(slots), visits) && DistinctVisits(visits)
      ensures var step := o.Asking(lang, force, run).StepOf(lang);
              if step.nameIsSafe && step.clears then visits != [] && visits[0] == Visit(lang, step.recovers)
              else visits == [] && staged.None?
      ensures staged.Some? ==> staged.value.ValidFor(lang, force, run) && staged.value.deps == LangsOf(visits)
    {
      var after;
      staged, after, visits := StageChain(o.Asking(lang, force, run), slots, good);
      slots := after;
    }

    /** Un-publish the requested language; keep base languages, which others may rely on already. */
    method Rollback(ghost before: Disk, staged: StagedQueries, published: set<Lang>, lang: Lang, run: RunId,
                    o: Outcomes)
      returns (outcome: RollbackOutcome)
      requires forall d | d in published :: run !in At(before, d).backups
      requires forall d | d in staged.copies :: staged.copies[d].writer == run
      requires PublishedExactly(before, slots, published, staged.copies, run)
      requires lang in published ==> !At(before, lang).tombstone
      modifies this`slots
      ensures RolledBack(before, slots, published, staged.copies, lang, run, outcome)
    {
      outcome := Undone;
      var left := published;
      ghost var start, undoneTo := slots, UndoPublish(At(slots, lang), run, o.undo);
      while left != {}
        invariant RollingBack(start, slots, published, left, lang, undoneTo, outcome)
      {
        var d :| d in left;
        if d != lang {
          DiscardsOneMore(start, slots, published, left, lang, undoneTo, outcome, d, run, d in o.discardFails);
          slots := slots[d := DiscardBackup(At(slots, d), run, d in o.discardFails)];
        } else {
          UndoesRequested(start, slots, published, left, lang, undoneTo, outcome);
          var (slot, undone) := UndoPublish(At(slots, d), run, o.undo);
          slots := slots[d := slot];
          outcome := undone;
        }
        left := left - {d};
      }
      RollbackSettled(before, start, slots, published, staged.copies, lang, run, o.undo, outcome);
    }

    /** The exit of a publish that cannot settle `d`: roll back, and say what is left. */
    method Abandon(ghost before: Disk, staged: StagedQueries, published: set<Lang>, d: Lang, force: bool, lang: Lang,
                   run: RunId, o: Outcomes)
      returns (failure: PublishFailure, ghost stranded: Option<Lang>)
      requires staged.ValidFor(lang, false, run) && d in staged.copies && d !in published && lang !in published
      requires forall e :: run !in At(before, e).backups
      requires PublishedExactly(before, slots, published, staged.copies, run)
      requires !PublishQueries(At(slots, d), staged.copies[d], force, run, o.PublishFaultOf(d)).1.Published?
      modifies this`slots
      ensures RolledBack(StrandedAt(before, stranded, run), slots, published, staged.copies, lang, run, failure.residue)
      ensures stranded.Some? <==> failure.error == QueryPublishFailed(true)
      ensures stranded.Some? ==> stranded.value == d && At(before, d).queries.Some?
      ensures failure.error.QueryPublishFailed? || failure.error == DependencyChanged
      ensures PublishQueries(At(old(slots), d), staged.copies[d], force, run, o.PublishFaultOf(d)).1.PublishFailed? ==>
                failure.error.QueryPublishFailed?
    {
      PublishedNoMore(before, slots, published, staged.copies, run, d, force, o.PublishFaultOf(d));
      var (slot, outcome) := PublishQueries(At(slots, d), staged.copies[d], force, run, o.PublishFaultOf(d));
      stranded := if outcome == PublishFailed(true) then Some(d) else None;
      slots := slots[d := slot];
      var residue := Rollback(StrandedAt(before, stranded, run), staged, published, lang, run, o);
      var error := if outcome.PublishFailed? then QueryPublishFailed(outcome.stranded) else DependencyChanged;
      failure := PublishFailure(error, residue);
    }

    /** Rename every staged copy into place, or roll back what was published. */
    method PublishAll(staged: StagedQueries, lang: Lang, claimed: bool, run: RunId, o: Outcomes)
      returns (published: set<Lang>, failure: Option<PublishFailure>, ghost stranded: Option<Lang>)
      requires staged.ValidFor(lang, false, run) && staged.Stable(slots, lang)
      requires forall d :: run !in At(slots, d).backups
      requires forall d | d in staged.deps :: !At(slots, d).tombstone
      modifies this`slots
      ensures failure.None? <==> AllSettle(old(slots), staged.order, staged.deps, lang, claimed, o)
      ensures failure.None? ==>
                && PublishedExactly(old(slots), slots, published, staged.copies, run)
                && ChainOnDisk(slots, staged.deps, lang)
                && AllPublished(old(slots), staged.order, published, lang, claimed)
      ensures failure.Some? ==>
                && RolledBack(StrandedAt(old(slots), stranded, run), slots, published, staged.copies, lang, run,
                              failure.value.residue)
                && (stranded.Some? <==> failure.value.error == QueryPublishFailed(true))
                && (stranded.Some? ==> stranded.value in staged.copies && At(old(slots), stranded.value).queries.Some?)
                && lang !in published && (stranded.Some? ==> stranded.value !in published)
      ensures failure.Some? && !failure.value.error.QueryPublishFailed? ==>
                && failure.value.error == DependencyChanged
                && exists d :: d in staged.order && Yields(At(old(slots), d), d == lang && claimed)
    {
      published, failure, stranded := {}, None, None;
      ghost var before := slots;
      var k := 0;
      while k < |staged.order|
        invariant k <= |staged.order|
        invariant Publishing(before, slots, published, staged, k, lang, claimed, run, o)
      {
        var d := staged.order[k];
        var forced, fault := d == lang && claimed, o.PublishFaultOf(d);
        var (slot, outcome) := PublishQueries(At(slots, d), staged.copies[d], forced, run, fault);
        assert At(slots, d) == At(before, d);
        SettlesOneMore(before, staged, k, lang, claimed, run, o);
        RequestedComesLast(staged, lang, run, k);
        if outcome.Published? {
          PublishingOneMore(before, slots, published, staged, k, lang, claimed, run, o);
          slots := slots[d := slot];
          published := published + {d};
        } else if !(outcome.AlreadyComplete? && At(slots, d).queries.value.Parents(d == lang) <= staged.deps) {
          var abandoned;
          abandoned, stranded := Abandon(before, staged, published, d, d == lang && claimed, lang, run, o);
          failure := Some(abandoned);
          return;
        } else {
          YieldingOneMore(before, slots, published, staged, k, lang, claimed, run, o);
        }
        k := k + 1;
      }
      PublishingEnds(before, slots, published, staged, lang, claimed, run, o);
    }

    /** Make the publish final by dropping what it displaced. */
    method Commit(published: set<Lang>, run: RunId, o: Outcomes)
      modifies this`slots
      ensures forall d :: At(slots, d) ==
                if d in published then DiscardBackup(At(old(slots), d), run, d in o.discardFails) else At(old(slots), d)
      ensures forall d :: SameButBackups(At(old(slots), d), At(slots, d))
    {
      var left := published;
      while left != {}
        invariant left <= published
        invariant forall d :: At(slots, d) ==
                    if d in published - left then DiscardBackup(At(old(slots), d), run, d in o.discardFails)
                    else At(old(slots), d)
      {
        var d :| d in left;
        left := left - {d};
        slots := slots[d := DiscardBackup(At(slots, d), run, d in o.discardFails)];
      }
    }

    /** Install a language: stage both halves, lock and recheck, publish the
        queries and then the parser, and commit - or undo. */
    method InstallLanguage(lang: Lang, force: bool, run: RunId, o: Outcomes)
      returns (result: InstallResult, ghost visits: seq<Visit>)
      requires forall d :: run !in At(slots, d).backups
      modifies this`slots
      ensures result.IsSuccess() <==> result.parserPath == Some(lang) && result.queriesPath == Some(lang)
      ensures !result.IsSuccess() ==> result.queriesPath.None? && result.filesDownloaded == []
      ensures result.IsSuccess() ==>
                && result.rollbackResidue.None? && At(slots, lang).parser.ParserFile?
                && lang in LangsOf(visits) && ChainOnDisk(slots, LangsOf(visits), lang)
      ensures EndsWith(old(slots), o.Asking(lang, force, run), o, result.parserError, result.queriesError)
      ensures result.IsSuccess() <==> Succeeds(old(slots), o.Asking(lang, force, run), o)
      ensures result.IsSuccess() ==>
                && At(slots, lang).parser ==
                   ParserSettled(At(old(slots), lang).parser, NeedsParser(old(slots), o.Asking(lang, force, run)), run)
                && forall l :: At(slots, l).queries ==
                     if l in LangsOf(visits) then CopyFor(old(slots), o.Asking(lang, force, run), l)
                     else At(old(slots), l).queries
      ensures var lost := && ReachesParser(old(slots), o.Asking(lang, force, run), o)
                          && ParserLost(At(old(slots), lang), force, windows, o.parser);
              !result.IsSuccess() ==>
                && FailureIsHonest(AfterVisits(old(slots), visits), slots, lang, run, lost, result.rollbackResidue)
                && (At(slots, lang).parser != At(old(slots), lang).parser <==> lost)
      ensures !result.IsSuccess() && result.rollbackResidue.None? ==>
                (At(slots, lang).queries != At(old(slots), lang).queries <==>
                   RecoversStranded(At(old(slots), lang), o.Asking(lang, force, run).StepOf(lang)))
      ensures forall d :: d != lang ==> At(slots, d).parser == At(old(slots), d).parser
    {
      result, visits := NOTHING_YET, [];
      ghost var found, req := slots, o.Asking(lang, force, run);
      if !o.Asking(lang, force, run).StepOf(lang).nameIsSafe {
        return result.(parserError := Some(InvalidName), queriesError := Some(InvalidName)), visits;
      }
      ghost var good := ChainFor(found, req, o);
      var staging;
      staging, visits := StageQueries(lang, force, run, o, good);
      RequestedRecovers(found, visits, lang, req.StepOf(lang));
      forall d
        ensures At(slots, d).parser == At(found, d).parser && run !in At(slots, d).backups
      {
        VisitsOnlyRecover(found, visits, d);
      }
      if staging.None? {
        return result.(queriesError := Some(StagingFailed)), visits;
      }
      var staged := staging.value;
      LeastChainDecides(found, req, o, staged.deps, good);
      var parserStaged := force || !At(slots, lang).parser.ParserFile?;
      if parserStaged && !o.compiles {
        return result.(parserError := Some(CompileFailed)), visits;
      }
      SettlesAlone(found, req, slots, staged, parserStaged, o);
      var changed := Recheck(staged, lang, o);
      if changed.Some? {
        return result.(queriesError := changed), visits;
      }
      parserStaged := parserStaged && (force || !At(slots, lang).parser.ParserFile?);
      ghost var reached := slots;
      result := PublishBoth(staged, lang, parserStaged, run, o);
      if result.IsSuccess() {
        ChainIsLeft(found, req, visits, reached, slots, staged, parserStaged);
      }
    }

    /** Take the locks, then see whether what staging found still holds. */
    method Recheck(staged: StagedQueries, lang: Lang, o: Outcomes) returns (error: Option<InstallError>)
      ensures error == if !o.locks then Some(LockFailed)
                       else if exists d | d in staged.deps :: At(slots, d).tombstone then Some(WasUninstalled)
                       else if !staged.Stable(slots, lang) then Some(DependencyChanged)
                       else None
    {
      if !o.locks {
        return Some(LockFailed);
      }
      if exists d | d in staged.deps :: At(slots, d).tombstone {
        return Some(WasUninstalled);
      }
      return if staged.Stable(slots, lang) then None else Some(DependencyChanged);
    }

    /** The transaction proper, under the locks. */
    method PublishBoth(staged: StagedQueries, lang: Lang, parserStaged: bool, run: RunId, o: Outcomes)
      returns (result: InstallResult)
      requires staged.ValidFor(lang, false, run) && staged.Stable(slots, lang)
      requires forall d :: run !in At(slots, d).backups
      requires forall d | d in staged.deps :: !At(slots, d).tombstone
      modifies this`slots
      ensures result.IsSuccess() <==> result.parserPath == Some(lang) && result.queriesPath == Some(lang)
      ensures !result.IsSuccess() ==> result.queriesPath.None? && result.filesDownloaded == []
      ensures result.IsSuccess() ==>
                && result.rollbackResidue.None? && At(slots, lang).parser.ParserFile?
                && ChainOnDisk(slots, staged.deps, lang)
                && forall d :: d != lang ==> At(slots, d).parser == At(old(slots), d).parser
      ensures !result.IsSuccess() ==>
                FailureIsHonest(old(slots), slots, lang, run,
                                AllSettle(old(slots), staged.order, staged.deps, lang, parserStaged, o)
                                && ParserLost(At(old(slots), lang), parserStaged, windows, o.parser),
                                result.rollbackResidue)
      ensures result.IsSuccess() ==>
                && QueriesLeft(old(slots), slots, staged, lang, parserStaged)
                && At(slots, lang).parser == ParserSettled(At(old(slots), lang).parser, parserStaged, run)
      ensures if !AllSettle(old(slots), staged.order, staged.deps, lang, parserStaged, o) then
                && result.parserError.None? && result.queriesError.Some?
                && (result.queriesError.value.QueryPublishFailed? ||
                      (&& result.queriesError == Some(DependencyChanged)
                       && exists d :: d in staged.order && Yields(At(old(slots), d), d == lang && parserStaged)))
              else
                && result.queriesError.None?
                && result.parserError == ParserErrorOf(At(old(slots), lang).parser, parserStaged, o.parser)
    {
      result := NOTHING_YET;
      var published, failure;
      ghost var stranded;
      published, failure, stranded := PublishAll(staged, lang, parserStaged, run, o);
      if failure.Some? {
        FailedPublishIsHonest(old(slots), slots, published, staged.copies, lang, run, stranded, failure.value.residue);
        var residue := ResidueOf(failure.value.residue);
        return result.(queriesError := Some(failure.value.error),
                       rollbackResidue := if residue.None? && failure.value.error == QueryPublishFailed(true)
                                          then Some(QueriesStranded) else residue);
      }
      PublishedIsLeft(old(slots), slots, published, staged, lang, parserStaged, run);
      result := FinishInstall(old(slots), staged, published, lang, parserStaged, run, o);
    }

    /** With the queries published: the parser last, then commit - or roll the queries back. */
    method FinishInstall(ghost before: Disk, staged: StagedQueries, published: set<Lang>, lang: Lang,
                         parserStaged: bool, run: RunId, o: Outcomes)
      returns (result: InstallResult)
      requires staged.ValidFor(lang, false, run)
      requires forall d :: run !in At(before, d).backups
      requires !At(before, lang).tombstone
      requires PublishedExactly(before, slots, published, staged.copies, run) && ChainOnDisk(slots, staged.deps, lang)
      modifies this`slots
      ensures result.IsSuccess() <==> result.parserPath == Some(lang) && result.queriesPath == Some(lang)
      ensures !result.IsSuccess() ==> result.queriesPath.None? && result.filesDownloaded == []
      ensures result.IsSuccess() ==>
                && result.rollbackResidue.None? && At(slots, lang).parser.ParserFile?
                && ChainOnDisk(slots, staged.deps, lang)
                && forall d :: d != lang ==> At(slots, d).parser == At(before, d).parser
      ensures !result.IsSuccess() ==>
                FailureIsHonest(before, slots, lang, run, ParserLost(At(before, lang), parserStaged, windows, o.parser),
                                result.rollbackResidue)
      ensures result.queriesError.None?
      ensures result.parserError == ParserErrorOf(At(before, lang).parser, parserStaged, o.parser)
      ensures result.IsSuccess() ==>
                && (forall d :: At(slots, d).queries == At(old(slots), d).queries)
                && At(slots, lang).parser == ParserSettled(At(before, lang).parser, parserStaged, run)
    {
      var ok := SettleParser(lang, parserStaged, run, o);
      if ok {
        Commit(published, run, o);
        CommittedIsWhole(before, old(slots), slots, published, staged.copies, staged.deps, lang, run);
        return NOTHING_YET.(parserPath := Some(lang), queriesPath := Some(lang),
                            filesDownloaded := if lang in published then staged.files else []);
      }
      result := GiveUpParser(before, old(slots), staged, published, lang, parserStaged, run, o);
    }

    /** The parser step failed: roll the queries back, and say what is left. */
    method GiveUpParser(ghost before: Disk, ghost start: Disk, staged: StagedQueries, published: set<Lang>, lang: Lang,
                        parserStaged: bool, run: RunId, o: Outcomes)
      returns (result: InstallResult)
      requires staged.ValidFor(lang, false, run)
      requires forall d :: run !in At(before, d).backups
      requires !At(before, lang).tombstone
      requires PublishedExactly(before, start, published, staged.copies, run)
      requires slots == start || slots == start[lang := At(start, lang).(parser := At(slots, lang).parser)]
      requires var lost := ParserLost(At(start, lang), parserStaged, windows, o.parser);
               At(slots, lang).parser == ParserLeft(At(start, lang), lost)
      modifies this`slots
      ensures FailureIsHonest(before, slots, lang, run, ParserLost(At(before, lang), parserStaged, windows, o.parser),
                              result.rollbackResidue)
      ensures result == NOTHING_YET.(parserError := Some(if parserStaged then ParserPublishFailed else ParserRemoved),
                                     rollbackResidue := result.rollbackResidue)
    {
      ReachedWithParser(before, start, slots, published, staged.copies, lang, run);
      ghost var reached := before[lang := At(before, lang).(parser := At(slots, lang).parser)];
      var outcome := Rollback(reached, staged, published, lang, run, o);
      FailedParserIsHonest(before, reached, slots, published, staged.copies, lang, run,
                           ParserLost(At(before, lang), parserStaged, windows, o.parser), outcome);
      return NOTHING_YET.(parserError := Some(if parserStaged then ParserPublishFailed else ParserRemoved),
                          rollbackResidue := ResidueOf(outcome));
    }

    /** Publish the staged parser, or make sure the one found at staging is still there. */
    method SettleParser(lang: Lang, parserStaged: bool, run: RunId, o: Outcomes) returns (ok: bool)
      modifies this`slots
      ensures || slots == old(slots)
              || slots == old(slots)[lang := At(old(slots), lang).(parser := At(slots, lang).parser)]
      ensures forall d :: At(slots, d).queries == At(old(slots), d).queries
      ensures forall d :: d != lang ==> At(slots, d) == At(old(slots), d)
      ensures ok <==> ParserSettles(At(old(slots), lang).parser, parserStaged, o.parser)
      ensures ok ==> At(slots, lang).parser == if parserStaged then ParserFile(run) else At(old(slots), lang).parser
      ensures ok ==> At(slots, lang).parser.ParserFile?
      ensures !ok ==>
                var lost := ParserLost(At(old(slots), lang), parserStaged, windows, o.parser);
                && At(slots, lang).parser == ParserLeft(At(old(slots), lang), lost)
                && (At(slots, lang) != At(old(slots), lang) <==> lost)
    {
      if parserStaged {
        var (slot, published) := PublishParser(At(slots, lang), run, windows, o.parser);
        slots := slots[lang := slot];
        ok := published;
      } else {
        ok := At(slots, lang).parser.ParserFile?;
      }
    }
  }
}
