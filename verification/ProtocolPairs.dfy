/**
 Racing installs never leave one run's parser beside another's queries.
 */
module ProtocolPairs {
  import opened LanguageSlot
  import opened InstallProtocol
  import opened ProtocolInvariant
  import opened Wrappers

  /** `id` is an install that was asked for `l` itself, not for a language inheriting it. */
  predicate InstallOf(runs: map<RunId, Run>, id: RunId, l: Lang) {
    id in runs && runs[id].Install? && runs[id].lang == l
  }

  /** The run reports something of `l` that could not be undone or removed: as its
      own language, or as one of a chain in which it stranded queries. */
  predicate ReportsResidue(run: Run, l: Lang) {
    if run.Install? then
      || (run.residue == Some(QueriesStranded) && l in run.deps)
      || ((run.residue == Some(NewQueriesLive) || run.parserLost) && l == run.lang)
    else
      (run.queriesFailed || run.parserFailed) && l == run.lang
  }

  ghost predicate ResidueReported(s: State, l: Lang) {
    exists i :: i in s.runs && ReportsResidue(s.runs[i], l)
  }

  ghost predicate ResidueKept(run: Run, after: Run) {
    forall l :: ReportsResidue(run, l) ==> ReportsResidue(after, l)
  }

  /** Parser and queries belong together: they come from one install of this
      language, or the queries come from no install of this language at all. */
  predicate PairOk(runs: map<RunId, Run>, slot: Slot, l: Lang) {
    && (slot.parser.ParserFile? ==>
          && slot.Complete()
          && (slot.queries.value.writer == slot.parser.writer || !InstallOf(runs, slot.queries.value.writer, l)))
    && (slot.queries.Some? && InstallOf(runs, slot.queries.value.writer, l) ==>
          slot.parser == ParserFile(slot.queries.value.writer))
  }

  /** The run is halfway through changing the pair of `l`. */
  predicate Midway(run: Run, l: Lang) {
    if run.Install? then run.lang == l && run.pc.Undoable() && l in run.published else run.TakingParserOf(l)
  }

  /** A change that is halfway can be completed or undone into a good pair. */
  predicate Between(runs: map<RunId, Run>, i: RunId, slot: Slot, l: Lang)
    requires i in runs
  {
    if runs[i].Install? then
      && PairOk(runs, slot.Restored(i), l)
      && (runs[i].parserStaged || !slot.parser.ParserFile?)
      && (i !in slot.backups ==> slot.backups == map[])
    else
      slot.queries.None?
  }

  ghost predicate SlotPairOk(s: State, l: Lang) {
    var slot := At(s.slots, l);
    && (slot.queries.None? ==> slot.backups == map[])
    && (forall i :: i in s.runs && Midway(s.runs[i], l) ==> Between(s.runs, i, slot, l))
    && (PairOk(s.runs, slot, l) || exists i :: i in s.runs && Midway(s.runs[i], l))
  }

  /** Every copy and parser on disk was written by a run that exists. */
  predicate WritersIn(slot: Slot, ids: set<RunId>) {
    && (slot.parser.ParserFile? ==> slot.parser.writer in ids)
    && (slot.queries.Some? ==> slot.queries.value.writer in ids)
    && (forall b | b in slot.backups :: slot.backups[b].writer in ids)
  }

  /** What the claim and the yield guarantee about an install's own language. */
  predicate ClaimOk(slots: Disk, a: Run) {
    a.Install? && !a.pc.InstallDone? ==>
      && (a.force ==> a.lang in a.entries || (a.pc.Staging? && (a.lang in a.todo || a.looking == Some(a.lang))))
      && (a.force && !a.pc.Staging? ==> a.parserStaged)
      && (a.parserStaged && !a.force && (a.pc.Publishing? || a.pc.PublishingParser?) ==>
            !At(slots, a.lang).parser.ParserFile?)
      && (a.parserStaged && a.lang in a.settled && (a.pc.Publishing? || a.pc.PublishingParser?) ==>
            a.lang in a.published)
  }

  ghost predicate PairInv(s: State) {
    && (forall l :: WritersIn(At(s.slots, l), s.runs.Keys))
    && (forall i :: i in s.runs ==> ClaimOk(s.slots, s.runs[i]))
    && (forall l :: ResidueReported(s, l) || SlotPairOk(s, l))
  }

  // ---------------------------------------------------------------- frames

  lemma PairOkFrame(runs: map<RunId, Run>, runs': map<RunId, Run>, slot: Slot, l: Lang)
    requires runs.Keys <= runs'.Keys
    requires forall j :: j in runs ==> runs'[j].Install? == runs[j].Install? && runs'[j].lang == runs[j].lang
    requires WritersIn(slot, runs.Keys)
    ensures PairOk(runs', slot, l) == PairOk(runs, slot, l)
  {
  }

  lemma RestoredFrame(runs: map<RunId, Run>, runs': map<RunId, Run>, slot: Slot, i: RunId, l: Lang)
    requires runs.Keys <= runs'.Keys
    requires forall j :: j in runs ==> runs'[j].Install? == runs[j].Install? && runs'[j].lang == runs[j].lang
    requires WritersIn(slot, runs.Keys)
    ensures PairOk(runs', slot.Restored(i), l) == PairOk(runs, slot.Restored(i), l)
  {
    PairOkFrame(runs, runs', slot.Restored(i), l);
  }

  /** A slot the step does not touch stays paired if the moving run stays midway, or never was. */
  lemma SlotPairFrame(s: State, s': State, i: RunId, l: Lang)
    requires SlotPairOk(s, l) && WritersIn(At(s.slots, l), s.runs.Keys)
    requires i in s'.runs && s'.runs == s.runs[i := s'.runs[i]]
    requires i in s.runs ==> s'.runs[i].Install? == s.runs[i].Install? && s'.runs[i].lang == s.runs[i].lang
    requires At(s'.slots, l) == At(s.slots, l)
    requires Midway(s'.runs[i], l) <==> i in s.runs && Midway(s.runs[i], l)
    requires Midway(s'.runs[i], l) && s'.runs[i].Install? ==> s'.runs[i].parserStaged == s.runs[i].parserStaged
    ensures SlotPairOk(s', l)
  {
    var slot := At(s.slots, l);
    PairOkFrame(s.runs, s'.runs, slot, l);
    forall j | j in s'.runs && Midway(s'.runs[j], l)
      ensures Between(s'.runs, j, slot, l)
    {
      assert j in s.runs && Midway(s.runs[j], l);
      RestoredFrame(s.runs, s'.runs, slot, j, l);
    }
    if !PairOk(s.runs, slot, l) {
      var j :| j in s.runs && Midway(s.runs[j], l);
      assert Midway(s'.runs[j], l);
    }
  }

  lemma ResiduePersists(s: State, s': State, i: RunId, l: Lang)
    requires i in s'.runs && s'.runs == s.runs[i := s'.runs[i]]
    requires i in s.runs ==> ResidueKept(s.runs[i], s'.runs[i])
    ensures ResidueReported(s, l) || ReportsResidue(s'.runs[i], l) ==> ResidueReported(s', l)
  {
    if j :| j in s.runs && ReportsResidue(s.runs[j], l) {
      assert j in s'.runs && ReportsResidue(s'.runs[j], l);
    }
  }

  /** One run moves to `a` and at most the slot of `l` changes. */
  lemma StepKeepsPairs(s: State, s': State, i: RunId, l: Lang)
    requires Inv(s) && PairInv(s)
    requires i in s'.runs && s'.runs == s.runs[i := s'.runs[i]]
    requires i in s.runs ==> s'.runs[i].Install? == s.runs[i].Install? && s'.runs[i].lang == s.runs[i].lang
    requires i in s.runs ==> ResidueKept(s.runs[i], s'.runs[i])
    requires forall m :: m != l ==> At(s'.slots, m) == At(s.slots, m)
    requires forall j :: j in s.runs && j != i && l in s.runs[j].Held() ==>
               At(s'.slots, l).parser == At(s.slots, l).parser
    requires WritersIn(At(s'.slots, l), s'.runs.Keys)
    requires ClaimOk(s'.slots, s'.runs[i])
    requires !ResidueReported(s, l) && !ReportsResidue(s'.runs[i], l) ==> SlotPairOk(s', l)
    requires forall m :: m != l ==> (Midway(s'.runs[i], m) <==> i in s.runs && Midway(s.runs[i], m))
    requires i in s.runs && s'.runs[i].Install? && s'.runs[i].lang != l ==>
               s'.runs[i].parserStaged == s.runs[i].parserStaged
    ensures PairInv(s')
  {
    forall m
      ensures WritersIn(At(s'.slots, m), s'.runs.Keys)
    {
      assert WritersIn(At(s.slots, m), s.runs.Keys);
    }
    forall j | j in s'.runs
      ensures ClaimOk(s'.slots, s'.runs[j])
    {
      if j != i {
        assert ClaimOk(s.slots, s.runs[j]) && RunOk(s.slots, HalfReported(s, s.runs[j].lang), j, s.runs[j]);
      }
    }
    forall m
      ensures ResidueReported(s', m) || SlotPairOk(s', m)
    {
      ResiduePersists(s, s', i, m);
      if m != l && !ResidueReported(s', m) {
        assert SlotPairOk(s, m);
        SlotPairFrame(s, s', i, m);
      }
    }
  }

  lemma MidwayHolds(s: State, j: RunId, l: Lang)
    requires Inv(s) && j in s.runs && Midway(s.runs[j], l)
    ensures l in s.runs[j].Held()
  {
    assert RunOk(s.slots, HalfReported(s, s.runs[j].lang), j, s.runs[j]);
  }

  /** What a run finds in a slot that nobody else holds. */
  lemma FoundPaired(s: State, i: RunId, l: Lang)
    requires Inv(s) && PairInv(s) && !ResidueReported(s, l)
    requires forall j :: j in s.runs && j != i ==> l !in s.runs[j].Held()
    requires i in s.runs ==> !Midway(s.runs[i], l)
    ensures PairOk(s.runs, At(s.slots, l), l)
  {
    assert SlotPairOk(s, l);
    if j :| j in s.runs && Midway(s.runs[j], l) {
      MidwayHolds(s, j, l);
    }
  }

  // ---------------------------------------------------------------- the steps

  /** Steps that leave every slot alone and no run halfway through a change. */
  lemma QuietKeepsPairs(s: State, i: RunId, a: Run)
    requires Inv(s) && PairInv(s)
    requires i in s.runs ==> a.Install? == s.runs[i].Install? && a.lang == s.runs[i].lang
    requires i in s.runs ==> ResidueKept(s.runs[i], a)
    requires ClaimOk(s.slots, a)
    requires Midway(a, a.lang) <==> i in s.runs && Midway(s.runs[i], a.lang)
    requires Midway(a, a.lang) && a.Install? ==> a.parserStaged == s.runs[i].parserStaged
    ensures PairInv(Move(s, i, a))
  {
    var s' := Move(s, i, a);
    assert WritersIn(At(s.slots, a.lang), s.runs.Keys);
    if !ResidueReported(s, a.lang) {
      SlotPairFrame(s, s', i, a.lang);
    }
    StepKeepsPairs(s, s', i, a.lang);
  }

  lemma StartKeepsPairs(s: State, e: Event)
    requires Inv(s) && PairInv(s) && Enabled(s, e) && (e.StartInstall? || e.StartUninstall?)
    ensures PairInv(Apply(s, e))
  {
    QuietKeepsPairs(s, e.run, Apply(s, e).runs[e.run]);
  }

  lemma StageLookKeepsPairs(s: State, i: RunId, staged: Option<Copy>, inherited: set<Lang>)
    requires Inv(s) && PairInv(s) && Enabled(s, StageLook(i, staged, inherited))
    ensures PairInv(Apply(s, StageLook(i, staged, inherited)))
  {
    assert ClaimOk(s.slots, s.runs[i]);
    QuietKeepsPairs(s, i, Apply(s, StageLook(i, staged, inherited)).runs[i]);
  }

  lemma StageParserKeepsPairs(s: State, i: RunId, outcome: ParserStaging)
    requires Inv(s) && PairInv(s) && Enabled(s, StageParser(i, outcome))
    ensures PairInv(Apply(s, StageParser(i, outcome)))
  {
    var a := s.runs[i];
    assert ClaimOk(s.slots, a) && RunOk(s.slots, HalfReported(s, a.lang), i, a);
    if outcome.CompileFails? {
      AbandonKeepsPairs(s, i);
    } else {
      QuietKeepsPairs(s, i, a.(pc := Locking, parserStaged := outcome.Compiled?));
    }
  }

  lemma LockingKeepsPairs(s: State, e: Event)
    requires Inv(s) && PairInv(s) && Enabled(s, e)
    requires e.TakeLock? || e.TakeUninstallLock? || e.UninstallLockFails? || e.Probe?
    ensures PairInv(Apply(s, e))
  {
    assert ClaimOk(s.slots, s.runs[e.run]);
    QuietKeepsPairs(s, e.run, Apply(s, e).runs[e.run]);
  }

  lemma YieldKeepsPairs(s: State, i: RunId)
    requires Inv(s) && PairInv(s) && Enabled(s, YieldParser(i))
    ensures PairInv(Apply(s, YieldParser(i)))
  {
    assert ClaimOk(s.slots, s.runs[i]) && RunOk(s.slots, HalfReported(s, s.runs[i].lang), i, s.runs[i]);
    QuietKeepsPairs(s, i, Apply(s, YieldParser(i)).runs[i]);
  }

  lemma AbandonKeepsPairs(s: State, i: RunId)
    requires Inv(s) && PairInv(s) && i in s.runs && s.runs[i].Install? && !Midway(s.runs[i], s.runs[i].lang)
    ensures PairInv(Move(s, i, s.runs[i].Abandoned()))
  {
    QuietKeepsPairs(s, i, s.runs[i].Abandoned());
  }

  lemma TombstoneCheckKeepsPairs(s: State, i: RunId)
    requires Inv(s) && PairInv(s) && Enabled(s, CheckTombstones(i))
    ensures PairInv(Apply(s, CheckTombstones(i)))
  {
    var a := s.runs[i];
    if exists d | d in a.deps :: At(s.slots, d).tombstone {
      AbandonKeepsPairs(s, i);
    } else {
      assert ClaimOk(s.slots, a);
      QuietKeepsPairs(s, i, a.(pc := CheckingDependencies));
    }
  }

  lemma DependencyCheckKeepsPairs(s: State, i: RunId)
    requires Inv(s) && PairInv(s) && Enabled(s, CheckDependencies(i))
    ensures PairInv(Apply(s, CheckDependencies(i)))
  {
    var a := s.runs[i];
    if forall d | d in a.deps :: a.Covered(s.slots, d) {
      assert ClaimOk(s.slots, a);
      QuietKeepsPairs(s, i, a.(pc := Yielding));
    } else {
      AbandonKeepsPairs(s, i);
    }
  }

  lemma FinishKeepsPairs(s: State, i: RunId)
    requires Inv(s) && PairInv(s) && Enabled(s, FinishCommit(i))
    ensures PairInv(Apply(s, FinishCommit(i)))
  {
    QuietKeepsPairs(s, i, s.runs[i].(pc := InstallDone(true), held := {}));
  }

  /** A step that rewrites the slot of `l`, which no other run holds. */
  lemma WriteKeepsPairs(s: State, i: RunId, l: Lang, slot: Slot, a: Run)
    requires Inv(s) && PairInv(s) && i in s.runs
    requires forall j :: j in s.runs && j != i ==> l !in s.runs[j].Held()
    requires a.Install? == s.runs[i].Install? && a.lang == s.runs[i].lang
    requires ResidueKept(s.runs[i], a)
    requires WritersIn(slot, s.runs.Keys)
    requires ClaimOk(s.slots[l := slot], a)
    requires a.Install? ==> a.parserStaged == s.runs[i].parserStaged
    requires l != a.lang ==> (Midway(a, a.lang) <==> Midway(s.runs[i], a.lang))
    requires !ResidueReported(s, l) && !ReportsResidue(a, l) ==> slot.queries.None? ==> slot.backups == map[]
    requires !ResidueReported(s, l) && !ReportsResidue(a, l) ==>
               if Midway(a, l) then Between(s.runs[i := a], i, slot, l) else PairOk(s.runs[i := a], slot, l)
    ensures PairInv(WriteMove(s, i, l, slot, a))
  {
    var s' := WriteMove(s, i, l, slot, a);
    assert forall m :: m != l ==> At(s'.slots, m) == At(s.slots, m);
    if !ResidueReported(s, l) && !ReportsResidue(a, l) {
      forall j | j in s'.runs && Midway(s'.runs[j], l)
        ensures Between(s'.runs, j, slot, l)
      {
        if j != i {
          MidwayHolds(s, j, l);
          assert false;
        }
      }
      assert SlotPairOk(s', l);
    }
    StepKeepsPairs(s, s', i, l);
  }

  lemma StageClearKeepsPairs(s: State, i: RunId, l: Lang)
    requires Inv(s) && PairInv(s) && Enabled(s, StageClear(i, l))
    ensures PairInv(Apply(s, StageClear(i, l)))
  {
    var a := s.runs[i];
    var a' := a.(looking := Some(l), todo := a.todo - {l}, deps := a.deps + {l});
    var slot := At(s.slots, l).(tombstone := false);
    assert ClaimOk(s.slots, a) && RunOk(s.slots, HalfReported(s, a.lang), i, a);
    assert WritersIn(At(s.slots, l), s.runs.Keys);
    if !ResidueReported(s, l) {
      FoundPaired(s, i, l);
      assert SlotPairOk(s, l);
      PairOkFrame(s.runs, s.runs[i := a'], slot, l);
    }
    WriteKeepsPairs(s, i, l, slot, a');
  }

  // ---------------------------------------------------------------- publishing one entry

  /** A published copy: of a base language it pairs at once, of the requested one it waits for the parser. */
  lemma PublishedPairs(runs: map<RunId, Run>, i: RunId, found: Slot, slot: Slot, copy: Copy, l: Lang)
    requires i in runs && runs[i].Install? && copy.writer == i && copy.complete
    requires PublishedOver(found, slot, copy, i) && i !in found.backups
    requires PairOk(runs, found, l) && (found.queries.None? ==> found.backups == map[])
    requires l == runs[i].lang ==> runs[i].parserStaged || !found.parser.ParserFile?
    ensures if l == runs[i].lang then Between(runs, i, slot, l) else PairOk(runs, slot, l)
  {
    assert slot.Restored(i).queries == found.queries;
  }

  lemma PublishedWriteKeepsPairs(s: State, i: RunId, l: Lang, slot: Slot)
    requires Inv(s) && PairInv(s) && i in s.runs && PublishesNext(i, s.runs[i], l)
    requires PublishedOver(At(s.slots, l), slot, s.runs[i].entries[l], i)
    requires s.runs[i].Forces(l) || !At(s.slots, l).Complete()
    requires WritersIn(slot, s.runs.Keys)
    ensures PairInv(WriteMove(s, i, l, slot, Settle(s.runs[i], l, true)))
  {
    var a := s.runs[i];
    var found := At(s.slots, l);
    var a' := Settle(a, l, true);
    assert ClaimOk(s.slots, a) && RunOk(s.slots, HalfReported(s, a.lang), i, a);
    HeldByNoOther(s, i, l);
    if !ResidueReported(s, l) {
      FoundPaired(s, i, l);
      assert SlotPairOk(s, l) && WritersIn(found, s.runs.Keys) && i !in found.backups;
      PairOkFrame(s.runs, s.runs[i := a'], found, l);
      PublishedPairs(s.runs[i := a'], i, found, slot, a.entries[l], l);
    }
    WriteKeepsPairs(s, i, l, slot, a');
  }

  lemma PublishedKeepsPairs(s: State, i: RunId, l: Lang, fault: PublishFault)
    requires Inv(s) && PairInv(s) && Enabled(s, PublishEntry(i, l, fault))
    requires PublishQueries(At(s.slots, l), s.runs[i].entries[l], s.runs[i].Forces(l), i, fault).1.Published?
    ensures PairInv(Apply(s, PublishEntry(i, l, fault)))
  {
    var a := s.runs[i];
    var slot := PublishQueries(At(s.slots, l), a.entries[l], a.Forces(l), i, fault).0;
    assert WritersIn(slot, s.runs.Keys) by {
      assert WritersIn(At(s.slots, l), s.runs.Keys) && RunOk(s.slots, HalfReported(s, a.lang), i, a);
    }
    PublishedWriteKeepsPairs(s, i, l, slot);
  }

  lemma FailedKeepsPairs(s: State, i: RunId, l: Lang, slot: Slot, stranded: bool)
    requires Inv(s) && PairInv(s) && i in s.runs && PublishesNext(i, s.runs[i], l)
    requires if stranded then
               && At(s.slots, l).queries.Some? && slot.parser == At(s.slots, l).parser && WritersIn(slot, s.runs.Keys)
             else slot == At(s.slots, l)
    ensures PairInv(WriteMove(s, i, l, slot, Fail(s.runs[i], l, stranded)))
  {
    var a := s.runs[i];
    var a' := Fail(a, l, stranded);
    assert ClaimOk(s.slots, a) && RunOk(s.slots, HalfReported(s, a.lang), i, a);
    assert WritersIn(At(s.slots, l), s.runs.Keys);
    HeldByNoOther(s, i, l);
    if !ResidueReported(s, l) {
      FoundPaired(s, i, l);
      assert SlotPairOk(s, l);
      PairOkFrame(s.runs, s.runs[i := a'], At(s.slots, l), l);
    }
    WriteKeepsPairs(s, i, l, slot, a');
  }

  lemma FailedWriters(found: Slot, copy: Copy, force: bool, run: RunId, fault: PublishFault, ids: set<RunId>)
    requires WritersIn(found, ids) && PublishQueries(found, copy, force, run, fault).1.PublishFailed?
    ensures var (slot, outcome) := PublishQueries(found, copy, force, run, fault);
            if outcome.stranded then
              found.queries.Some? && slot.parser == found.parser && WritersIn(slot, ids)
            else slot == found
  {
  }

  lemma UnpublishedKeepsPairs(s: State, i: RunId, l: Lang, fault: PublishFault)
    requires Inv(s) && PairInv(s) && Enabled(s, PublishEntry(i, l, fault))
    requires !PublishQueries(At(s.slots, l), s.runs[i].entries[l], s.runs[i].Forces(l), i, fault).1.Published?
    ensures PairInv(Apply(s, PublishEntry(i, l, fault)))
  {
    var a := s.runs[i];
    var (slot, outcome) := PublishQueries(At(s.slots, l), a.entries[l], a.Forces(l), i, fault);
    assert PublishesNext(i, a, l);
    match outcome
    case PublishFailed(stranded) =>
      assert WritersIn(At(s.slots, l), s.runs.Keys);
      FailedWriters(At(s.slots, l), a.entries[l], a.Forces(l), i, fault, s.runs.Keys);
      FailedKeepsPairs(s, i, l, slot, stranded);
    case AlreadyComplete =>
      SettledKeepsPairs(s, i, l, AfterEntries(a, a.settled + {l}));
      SettledKeepsPairs(s, i, l, RollingBack);
    case Uninstalled =>
      SettledKeepsPairs(s, i, l, RollingBack);
  }

  /** An entry that was not published only moves its run along. */
  lemma SettledKeepsPairs(s: State, i: RunId, l: Lang, pc: InstallPc)
    requires Inv(s) && PairInv(s) && i in s.runs && PublishesNext(i, s.runs[i], l)
    requires pc.Undoable() && (pc.RollingBack? || !s.runs[i].Forces(l))
    ensures PairInv(Move(s, i, s.runs[i].(settled := s.runs[i].settled + {l}, pc := pc)))
  {
    assert ClaimOk(s.slots, s.runs[i]);
    QuietKeepsPairs(s, i, s.runs[i].(settled := s.runs[i].settled + {l}, pc := pc));
  }

  // ---------------------------------------------------------------- the parser

  /** A new parser pairs with the run's own queries, and with queries of no install of the language. */
  lemma SwappedPairs(runs: map<RunId, Run>, i: RunId, found: Slot, l: Lang)
    requires found.Complete() && (found.queries.value.writer == i || !InstallOf(runs, found.queries.value.writer, l))
    ensures PairOk(runs, found.(parser := ParserFile(i)), l)
  {
  }

  lemma SwapKeepsPairs(s: State, i: RunId)
    requires Inv(s) && PairInv(s) && AtInstall(s, i, PublishingParser) && s.runs[i].parserStaged
    ensures PairInv(WriteMove(s, i, s.runs[i].lang, At(s.slots, s.runs[i].lang).(parser := ParserFile(i)),
                              s.runs[i].(pc := Committing, parserLost := false)))
  {
    var a := s.runs[i];
    var l := a.lang;
    var found := At(s.slots, l);
    var a' := a.(pc := Committing, parserLost := false);
    assert ClaimOk(s.slots, a) && RunOk(s.slots, HalfReported(s, a.lang), i, a) && WritersIn(found, s.runs.Keys);
    assert a.Covered(s.slots, l);
    HeldByNoOther(s, i, l);
    if !ResidueReported(s, l) {
      assert SlotPairOk(s, l);
      PairOkFrame(s.runs, s.runs[i := a'], found, l);
      if !Midway(a, l) {
        FoundPaired(s, i, l);
      }
      SwappedPairs(s.runs[i := a'], i, found, l);
    }
    WriteKeepsPairs(s, i, l, found.(parser := ParserFile(i)), a');
  }

  lemma FailedSwapKeepsPairs(s: State, i: RunId, lost: bool)
    requires Inv(s) && PairInv(s) && AtInstall(s, i, PublishingParser) && s.runs[i].parserStaged
    ensures var l := s.runs[i].lang;
            PairInv(WriteMove(s, i, l, if lost then At(s.slots, l).(parser := NoParser) else At(s.slots, l),
                              s.runs[i].(pc := RollingBack, parserLost := lost)))
  {
    var a := s.runs[i];
    var l := a.lang;
    var found := At(s.slots, l);
    var a' := a.(pc := RollingBack, parserLost := lost);
    assert ClaimOk(s.slots, a) && RunOk(s.slots, HalfReported(s, a.lang), i, a) && WritersIn(found, s.runs.Keys);
    HeldByNoOther(s, i, l);
    if !ResidueReported(s, l) {
      assert SlotPairOk(s, l);
      PairOkFrame(s.runs, s.runs[i := a'], found, l);
      RestoredFrame(s.runs, s.runs[i := a'], found, i, l);
      if !Midway(a, l) {
        FoundPaired(s, i, l);
      }
    }
    WriteKeepsPairs(s, i, l, if lost then found.(parser := NoParser) else found, a');
  }

  lemma ParserKeepsPairs(s: State, i: RunId, fault: ParserFault)
    requires Inv(s) && PairInv(s) && Enabled(s, PublishTheParser(i, fault)) && s.runs[i].parserStaged
    ensures PairInv(Apply(s, PublishTheParser(i, fault)))
  {
    var found := At(s.slots, s.runs[i].lang);
    var (slot, ok) := PublishParser(found, i, s.windows, fault);
    if ok {
      assert RunOk(s.slots, HalfReported(s, s.runs[i].lang), i, s.runs[i]);
      SwapKeepsPairs(s, i);
    } else {
      FailedSwapKeepsPairs(s, i, slot != found);
    }
  }

  lemma FoundParserKeepsPairs(s: State, i: RunId, fault: ParserFault)
    requires Inv(s) && PairInv(s) && Enabled(s, PublishTheParser(i, fault)) && !s.runs[i].parserStaged
    ensures PairInv(Apply(s, PublishTheParser(i, fault)))
  {
    var a := s.runs[i];
    var l := a.lang;
    var found := At(s.slots, l);
    var a' := a.(pc := if found.parser.ParserFile? then Committing else RollingBack);
    assert ClaimOk(s.slots, a) && RunOk(s.slots, HalfReported(s, a.lang), i, a) && WritersIn(found, s.runs.Keys);
    HeldByNoOther(s, i, l);
    var s' := Move(s, i, a');
    if !ResidueReported(s, l) {
      assert SlotPairOk(s, l);
      if !Midway(a, l) {
        FoundPaired(s, i, l);
      }
      SlotPairFrame(s, s', i, l);
    }
    StepKeepsPairs(s, s', i, l);
  }

  // ---------------------------------------------------------------- rolling back and committing

  lemma RestoredPairs(runs: map<RunId, Run>, i: RunId, found: Slot, slot: Slot, l: Lang)
    requires PairOk(runs, found.Restored(i), l) && (i !in found.backups ==> found.backups == map[])
    requires slot == found.Restored(i).(backups := found.backups - {i})
    ensures PairOk(runs, slot, l) && (slot.queries.None? ==> slot.backups == map[])
  {
  }

  lemma UndoneWriteKeepsPairs(s: State, i: RunId, slot: Slot, outcome: RollbackOutcome)
    requires Inv(s) && PairInv(s) && AtInstall(s, i, RollingBack) && s.runs[i].lang in s.runs[i].published
    requires WritersIn(slot, s.runs.Keys) && slot.parser == At(s.slots, s.runs[i].lang).parser
    requires outcome.Undone? ==>
               var found := At(s.slots, s.runs[i].lang);
               slot == found.Restored(i).(backups := found.backups - {i})
    ensures PairInv(WriteMove(s, i, s.runs[i].lang, slot,
                              s.runs[i].(published := s.runs[i].published - {s.runs[i].lang},
                                         residue := ResidueOf(outcome))))
  {
    var a := s.runs[i];
    var l := a.lang;
    var a' := a.(published := a.published - {l}, residue := ResidueOf(outcome));
    assert ClaimOk(s.slots, a) && RunOk(s.slots, HalfReported(s, a.lang), i, a);
    HeldByNoOther(s, i, l);
    assert l in a.settled && l in a.entries.Keys && l in a.deps;
    if !ResidueReported(s, l) && outcome.Undone? {
      var found := At(s.slots, l);
      assert SlotPairOk(s, l) && Midway(a, l) && WritersIn(found, s.runs.Keys);
      RestoredFrame(s.runs, s.runs[i := a'], found, i, l);
      RestoredPairs(s.runs[i := a'], i, found, slot, l);
    }
    WriteKeepsPairs(s, i, l, slot, a');
  }

  lemma UndoneWriters(found: Slot, run: RunId, fault: UndoFault, ids: set<RunId>)
    requires WritersIn(found, ids) && !found.tombstone
    ensures var (slot, outcome) := UndoPublish(found, run, fault);
            && WritersIn(slot, ids) && slot.parser == found.parser
            && (outcome.Undone? ==> slot == found.Restored(run).(backups := found.backups - {run}))
  {
    if run !in found.backups {
      assert found.backups - {run} == found.backups;
    }
  }

  lemma UndoKeepsPairs(s: State, i: RunId, fault: UndoFault, discardFails: bool)
    requires Inv(s) && PairInv(s) && i in s.runs && Enabled(s, RollBackEntry(i, s.runs[i].lang, fault, discardFails))
    ensures PairInv(Apply(s, RollBackEntry(i, s.runs[i].lang, fault, discardFails)))
  {
    var a := s.runs[i];
    var found := At(s.slots, a.lang);
    var (slot, outcome) := UndoPublish(found, i, fault);
    assert RunOk(s.slots, HalfReported(s, a.lang), i, a) && WritersIn(found, s.runs.Keys);
    UndoneWriters(found, i, fault, s.runs.Keys);
    UndoneWriteKeepsPairs(s, i, slot, outcome);
  }

  lemma DiscardKeepsPairs(s: State, i: RunId, l: Lang, a': Run, fails: bool)
    requires Inv(s) && PairInv(s) && i in s.runs && s.runs[i].Install? && l in s.runs[i].published
    requires a' == s.runs[i].(published := s.runs[i].published - {l})
    requires s.runs[i].pc.Committing? || (s.runs[i].pc.RollingBack? && l != s.runs[i].lang)
    ensures PairInv(WriteMove(s, i, l, DiscardBackup(At(s.slots, l), i, fails), a'))
  {
    var a := s.runs[i];
    var found := At(s.slots, l);
    var slot := DiscardBackup(found, i, fails);
    assert ClaimOk(s.slots, a) && RunOk(s.slots, HalfReported(s, a.lang), i, a) && WritersIn(found, s.runs.Keys);
    HeldByNoOther(s, i, l);
    if !ResidueReported(s, l) {
      FoundPaired(s, i, l);
      PairOkFrame(s.runs, s.runs[i := a'], found, l);
    }
    WriteKeepsPairs(s, i, l, slot, a');
  }

  // ---------------------------------------------------------------- uninstalling

  lemma RemoveQueriesKeepsPairs(s: State, i: RunId, fault: RemovalFault)
    requires Inv(s) && PairInv(s) && Enabled(s, RemoveTheQueries(i, fault))
    ensures PairInv(Apply(s, RemoveTheQueries(i, fault)))
  {
    var a := s.runs[i];
    var l := a.lang;
    var (slot, removal) := RemoveQueries(At(s.slots, l), fault);
    var a' := a.(upc := if removal.queriesAbsent then RemovingParser else UninstallDone, queriesFailed := !removal.ok);
    assert RunOk(s.slots, HalfReported(s, a.lang), i, a) && WritersIn(At(s.slots, l), s.runs.Keys);
    HeldByNoOther(s, i, l);
    WriteKeepsPairs(s, i, l, slot, a');
  }

  lemma RemoveParserKeepsPairs(s: State, i: RunId, fails: bool)
    requires Inv(s) && PairInv(s) && Enabled(s, RemoveTheParser(i, fails))
    ensures PairInv(Apply(s, RemoveTheParser(i, fails)))
  {
    var a := s.runs[i];
    var l := a.lang;
    var found := At(s.slots, l);
    assert RunOk(s.slots, HalfReported(s, a.lang), i, a) && WritersIn(found, s.runs.Keys);
    HeldByNoOther(s, i, l);
    assert ResidueReported(s, l) || SlotPairOk(s, l);
    if a.entry {
      WriteKeepsPairs(s, i, l, RemoveParser(found, fails), a.(upc := UninstallDone, parserFailed := fails));
    } else {
      var s' := Move(s, i, a.(upc := UninstallDone));
      if !ResidueReported(s, l) {
        assert Midway(a, l);
        forall j | j in s'.runs
          ensures !Midway(s'.runs[j], l)
        {
          if j != i && Midway(s.runs[j], l) {
            MidwayHolds(s, j, l);
            assert false;
          }
        }
        assert SlotPairOk(s', l);
      }
      StepKeepsPairs(s, s', i, l);
    }
  }

  // ---------------------------------------------------------------- recovery

  /** A slot rewritten behind every run's back, with its parser left alone. */
  lemma SlotWriteKeepsPairs(s: State, l: Lang, slot: Slot)
    requires PairInv(s) && slot.parser == At(s.slots, l).parser && WritersIn(slot, s.runs.Keys)
    requires SlotPairOk(s, l) ==> SlotPairOk(Write(s, l, slot), l)
    ensures PairInv(Write(s, l, slot))
  {
    var s' := Write(s, l, slot);
    assert forall m :: m != l ==> At(s'.slots, m) == At(s.slots, m);
    forall m
      ensures ResidueReported(s', m) || SlotPairOk(s', m)
    {
      assert s'.runs == s.runs && (ResidueReported(s, m) ==> ResidueReported(s', m));
      assert ResidueReported(s, m) || SlotPairOk(s, m);
      if m != l {
        assert At(s'.slots, m) == At(s.slots, m);
      }
    }
    forall m
      ensures WritersIn(At(s'.slots, m), s'.runs.Keys)
    {
      assert WritersIn(At(s.slots, m), s.runs.Keys);
    }
    forall i | i in s.runs
      ensures ClaimOk(s'.slots, s'.runs[i])
    {
      assert ClaimOk(s.slots, s.runs[i]);
    }
  }

  lemma BackgroundKeepsPairs(s: State, e: Event)
    requires Inv(s) && PairInv(s) && Enabled(s, e) && (e.RecoverBackup? || e.CollectBackup?)
    ensures PairInv(Apply(s, e))
  {
    assert WritersIn(At(s.slots, e.lang), s.runs.Keys);
    if SlotPairOk(s, e.lang) {
      BackgroundSlotPairOk(s, e);
    }
    SlotWriteKeepsPairs(s, e.lang, At(Apply(s, e).slots, e.lang));
  }

  lemma BackgroundSlotPairOk(s: State, e: Event)
    requires Inv(s) && Enabled(s, e) && (e.RecoverBackup? || e.CollectBackup?)
    requires SlotPairOk(s, e.lang)
    ensures SlotPairOk(Apply(s, e), e.lang)
  {
    var s' := Apply(s, e);
    var l := e.lang;
    forall i | i in s.runs && Midway(s.runs[i], l)
      ensures Between(s'.runs, i, At(s'.slots, l), l)
    {
      assert Between(s.runs, i, At(s.slots, l), l);
      assert i != e.backup;
    }
  }

  // ---------------------------------------------------------------- every step, every run

  lemma TransactionKeepsPairs(s: State, e: Event)
    requires Inv(s) && PairInv(s) && Enabled(s, e) && IsTransactional(e)
    ensures PairInv(Apply(s, e))
  {
    match e
    case CheckTombstones(i) => TombstoneCheckKeepsPairs(s, i);
    case CheckDependencies(i) => DependencyCheckKeepsPairs(s, i);
    case YieldParser(i) => YieldKeepsPairs(s, i);
    case PublishEntry(i, l, fault) =>
      if PublishQueries(At(s.slots, l), s.runs[i].entries[l], s.runs[i].Forces(l), i, fault).1.Published? {
        PublishedKeepsPairs(s, i, l, fault);
      } else {
        UnpublishedKeepsPairs(s, i, l, fault);
      }
    case PublishTheParser(i, fault) =>
      if s.runs[i].parserStaged { ParserKeepsPairs(s, i, fault); } else { FoundParserKeepsPairs(s, i, fault); }
    case RollBackEntry(i, l, fault, fails) =>
      if l == s.runs[i].lang {
        UndoKeepsPairs(s, i, fault, fails);
      } else {
        DiscardKeepsPairs(s, i, l, s.runs[i].(published := s.runs[i].published - {l}), fails);
      }
    case FinishRollback(i) => AbandonKeepsPairs(s, i);
    case CommitEntry(i, l, fails) =>
      DiscardKeepsPairs(s, i, l, s.runs[i].(published := s.runs[i].published - {l}), fails);
    case FinishCommit(i) => FinishKeepsPairs(s, i);
  }

  lemma EventKeepsPairs(s: State, e: Event)
    requires Inv(s) && PairInv(s) && Enabled(s, e)
    ensures PairInv(Apply(s, e))
  {
    if IsTransactional(e) {
      TransactionKeepsPairs(s, e);
      return;
    }
    match e
    case StartInstall(_, _, _) => StartKeepsPairs(s, e);
    case StartUninstall(_, _) => StartKeepsPairs(s, e);
    case StageClear(i, l) => StageClearKeepsPairs(s, i, l);
    case StageLook(i, staged, inherited) => StageLookKeepsPairs(s, i, staged, inherited);
    case StageFails(i) => AbandonKeepsPairs(s, i);
    case StageParser(i, outcome) => StageParserKeepsPairs(s, i, outcome);
    case TakeLock(_, _) => LockingKeepsPairs(s, e);
    case LockFails(i) => AbandonKeepsPairs(s, i);
    case TakeUninstallLock(_) => LockingKeepsPairs(s, e);
    case UninstallLockFails(_) => LockingKeepsPairs(s, e);
    case Probe(_, _) => LockingKeepsPairs(s, e);
    case RemoveTheQueries(i, fault) => RemoveQueriesKeepsPairs(s, i, fault);
    case RemoveTheParser(i, fails) => RemoveParserKeepsPairs(s, i, fails);
    case RecoverBackup(_, _) => BackgroundKeepsPairs(s, e);
    case CollectBackup(_, _) => BackgroundKeepsPairs(s, e);
  }

  lemma {:induction false} ReachablePairInv(states: seq<State>, events: seq<Event>, k: nat)
    requires IsRun(states, events) && states[0].slots == map[] && states[0].runs == map[] && k < |states|
    ensures Inv(states[k]) && PairInv(states[k])
  {
    assert Starts(states[0]);
    ReachableInv(states, events, k);
    if k > 0 {
      ReachablePairInv(states, events, k - 1);
      EventKeepsPairs(states[k - 1], events[k - 1]);
    }
  }

  /** Started from a clean data directory, and unless some run reports a residue
      for that language, a free language never has a parser published by one of its
      installs beside queries published by another. */
  lemma NoMixedPair(states: seq<State>, events: seq<Event>, k: nat, l: Lang)
    requires IsRun(states, events) && states[0].slots == map[] && states[0].runs == map[] && k < |states|
    requires Free(states[k], l) && !ResidueReported(states[k], l)
    ensures var slot := At(states[k].slots, l);
            && (slot.parser.ParserFile? ==> slot.Complete())
            && (slot.parser.ParserFile? && InstallOf(states[k].runs, slot.queries.value.writer, l) ==>
                  slot.queries.value.writer == slot.parser.writer)
            && (slot.queries.Some? && InstallOf(states[k].runs, slot.queries.value.writer, l) ==>
                  slot.parser == ParserFile(slot.queries.value.writer))
  {
    ReachablePairInv(states, events, k);
    FoundFree(states[k], l);
  }

  lemma FoundFree(s: State, l: Lang)
    requires Inv(s) && PairInv(s) && !ResidueReported(s, l) && Free(s, l)
    ensures PairOk(s.runs, At(s.slots, l), l)
  {
    assert SlotPairOk(s, l);
    if j :| j in s.runs && Midway(s.runs[j], l) {
      MidwayHolds(s, j, l);
    }
  }
}
