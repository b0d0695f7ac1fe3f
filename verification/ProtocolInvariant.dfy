/**
 What every step of the install/uninstall protocol keeps, and the safety
 results that follow for every reachable state.
 */
module ProtocolInvariant {
  import opened LanguageSlot
  import opened InstallProtocol
  import opened Wrappers

  // ---------------------------------------------------------------- the invariant

  /** A run that reports stranded queries in a chain with `l`, or the parser of `l`
      as one it could not remove. */
  predicate ReportsHalfLanguage(run: Run, l: Lang) {
    if run.Install? then run.residue == Some(QueriesStranded) && l in run.deps else run.parserFailed && l == run.lang
  }

  ghost predicate HalfReported(s: State, l: Lang) {
    exists i :: i in s.runs && ReportsHalfLanguage(s.runs[i], l)
  }

  /** What `run` reports, `after` reports. */
  ghost predicate ReportsKept(run: Run, after: Run) {
    forall l :: ReportsHalfLanguage(run, l) ==> ReportsHalfLanguage(after, l)
  }

  ghost predicate Exclusive(s: State) {
    forall i, j :: i in s.runs && j in s.runs && i != j ==> s.runs[i].Held() !! s.runs[j].Held()
  }

  /** A run has no backup under its own name for a language it has not published. */
  ghost predicate BackupsNamed(s: State) {
    forall i, l :: i in s.runs && i in At(s.slots, l).backups ==> s.runs[i].Install? && l in s.runs[i].settled
  }

  ghost predicate InstallShape(i: RunId, a: Run)
    requires a.Install?
  {
    && a.held <= a.deps
    && (a.pc.InTransaction() ==> a.held == a.deps && a.entries.Keys <= a.deps && a.lang in a.deps)
    && (!a.pc.InTransaction() && !a.pc.Locking? ==> a.held == {})
    && (a.pc.Staging? ==>
          a.lang in a.todo + a.deps && a.todo !! a.deps && (a.looking.Some? ==> a.looking.value in a.deps))
    && a.entries.Keys <= a.deps
    && (a.pc.Locking? ==> a.lang in a.deps)
    && (forall l :: l in a.entries ==> a.entries[l].writer == i && a.entries[l].complete)
    && a.published <= a.settled <= a.entries.Keys
    && (a.lang in a.settled && a.pc.InTransaction() ==> a.settled == a.entries.Keys)
    && (a.pc.PublishingParser? || a.pc.Committing? ==> a.settled == a.entries.Keys)
    && (a.pc.BeforePublishing() ==> a.settled == {})
    && (a.parserLost ==> a.pc.RollingBack? || a.pc.InstallDone?)
    && (a.residue.Some? ==> a.lang !in a.published && (a.pc.RollingBack? || a.pc.InstallDone?))
  }

  /** What an install knows about the languages it has locked. */
  ghost predicate InstallOwns(slots: Disk, half: bool, i: RunId, a: Run)
    requires a.Install?
  {
    && (a.pc.InTransaction() && !a.pc.CheckingTombstones? ==> forall d :: d in a.deps ==> !At(slots, d).tombstone)
    && (a.pc.ChainChecked() || a.pc.Committing? ==> forall d :: d in a.deps ==> a.Covered(slots, d))
    && (a.pc.InTransaction() ==>
          forall l :: l in a.published ==> l in a.entries && At(slots, l).queries == Some(a.entries[l]))
    && (a.pc.Committing? ==> At(slots, a.lang).parser.ParserFile?)
    && (!half && a.pc.Undoable() && a.lang in a.published && i !in At(slots, a.lang).backups
        ==> !At(slots, a.lang).parser.ParserFile?)
  }

  ghost predicate RunOk(slots: Disk, half: bool, i: RunId, a: Run) {
    if a.Install? then
      InstallShape(i, a) && InstallOwns(slots, half, i, a)
    else
      && (a.upc.RemovingQueries? || a.upc.RemovingParser? ==> (a.entry <==> At(slots, a.lang).parser.ParserFile?))
      && (a.queriesFailed ==> a.upc.RemovingParser? || a.upc.UninstallDone?)
      && (a.parserFailed ==> a.upc.UninstallDone?)
  }

  ghost predicate SlotOk(s: State, l: Lang) {
    HalfReported(s, l) || At(s.slots, l).Paired() || exists i :: i in s.runs && s.runs[i].TakingParserOf(l)
  }

  ghost predicate Inv(s: State) {
    && Exclusive(s)
    && BackupsNamed(s)
    && (forall i :: i in s.runs ==> RunOk(s.slots, HalfReported(s, s.runs[i].lang), i, s.runs[i]))
    && (forall l :: SlotOk(s, l))
  }

  // ---------------------------------------------------------------- frames

  /** Run `i` moves to `a` and touches no language outside `touched`, which no
      other run holds. */
  ghost predicate StepOf(s: State, s': State, i: RunId, a: Run, touched: set<Lang>) {
    && s'.runs == s.runs[i := a]
    && s'.windows == s.windows
    && (forall l :: l !in touched ==> At(s'.slots, l) == At(s.slots, l))
    && (forall j :: j in s.runs && j != i ==> s.runs[j].Held() !! touched + a.Held())
    && (i in s.runs ==> ReportsKept(s.runs[i], a))
    && (forall j, l :: j in s.runs && j != i && j in At(s'.slots, l).backups ==> j in At(s.slots, l).backups)
  }

  lemma ReportsPersist(s: State, s': State, i: RunId, a: Run, l: Lang)
    requires s'.runs == s.runs[i := a] && (i in s.runs ==> ReportsKept(s.runs[i], a))
    ensures HalfReported(s, l) || ReportsHalfLanguage(a, l) ==> HalfReported(s', l)
  {
    if j :| j in s.runs && ReportsHalfLanguage(s.runs[j], l) {
      assert j in s'.runs && ReportsHalfLanguage(s'.runs[j], l);
    }
    assert i in s'.runs && s'.runs[i] == a;
  }

  /** What a run knows depends only on the slots it has locked. */
  lemma RunFrame(slots: Disk, slots': Disk, half: bool, half': bool, j: RunId, a: Run)
    requires RunOk(slots, half, j, a)
    requires half ==> half'
    requires forall l :: l in a.Held() ==> At(slots', l) == At(slots, l)
    ensures RunOk(slots', half', j, a)
  {
    if a.Install? && a.pc.InTransaction() {
      forall d | d in a.deps && a.Covered(slots, d)
        ensures a.Covered(slots', d)
      {
        assert a.Prepared(slots', d) == a.Prepared(slots, d);
      }
    }
  }

  lemma OthersStayOk(s: State, s': State, i: RunId, a: Run, touched: set<Lang>, j: RunId)
    requires Inv(s) && StepOf(s, s', i, a, touched) && j in s.runs && j != i
    ensures RunOk(s'.slots, HalfReported(s', s.runs[j].lang), j, s.runs[j])
  {
    ReportsPersist(s, s', i, a, s.runs[j].lang);
    assert RunOk(s.slots, HalfReported(s, s.runs[j].lang), j, s.runs[j]);
    RunFrame(s.slots, s'.slots, HalfReported(s, s.runs[j].lang), HalfReported(s', s.runs[j].lang), j, s.runs[j]);
  }

  lemma SlotStaysOk(s: State, s': State, i: RunId, a: Run, touched: set<Lang>, l: Lang)
    requires StepOf(s, s', i, a, touched) && SlotOk(s, l) && l !in touched
    requires i in s.runs && s.runs[i].TakingParserOf(l) && !a.TakingParserOf(l) ==> SlotOk(s', l)
    ensures SlotOk(s', l)
  {
    ReportsPersist(s, s', i, a, l);
    if !HalfReported(s', l) && !At(s.slots, l).Paired() {
      var j :| j in s.runs && s.runs[j].TakingParserOf(l);
      assert j in s'.runs;
      if j != i || a.TakingParserOf(l) {
        assert s'.runs[j].TakingParserOf(l);
      }
    }
  }

  lemma StaysExclusive(s: State, s': State, i: RunId, a: Run, touched: set<Lang>)
    requires Exclusive(s) && StepOf(s, s', i, a, touched)
    ensures Exclusive(s')
  {
    forall j, k | j in s'.runs && k in s'.runs && j != k
      ensures s'.runs[j].Held() !! s'.runs[k].Held()
    {
      if j != i && k != i {
        assert s.runs[j].Held() !! s.runs[k].Held();
      }
    }
  }

  lemma BackupsStayNamed(s: State, s': State, i: RunId, a: Run, touched: set<Lang>)
    requires BackupsNamed(s) && StepOf(s, s', i, a, touched)
    requires forall l :: i in At(s'.slots, l).backups ==> a.Install? && l in a.settled
    ensures BackupsNamed(s')
  {
    forall j, l | j in s'.runs && j in At(s'.slots, l).backups
      ensures s'.runs[j].Install? && l in s'.runs[j].settled
    {
      if j != i {
        assert j in At(s.slots, l).backups;
      }
    }
  }

  lemma RunsStayOk(s: State, s': State, i: RunId, a: Run, touched: set<Lang>)
    requires Inv(s) && StepOf(s, s', i, a, touched)
    requires RunOk(s'.slots, HalfReported(s', a.lang), i, a)
    ensures forall j :: j in s'.runs ==> RunOk(s'.slots, HalfReported(s', s'.runs[j].lang), j, s'.runs[j])
  {
    forall j | j in s'.runs
      ensures RunOk(s'.slots, HalfReported(s', s'.runs[j].lang), j, s'.runs[j])
    {
      if j != i {
        OthersStayOk(s, s', i, a, touched, j);
      }
    }
  }

  /** One step keeps the invariant if the moving run and the slots it touches are in order afterwards. */
  lemma StepKeepsInv(s: State, s': State, i: RunId, a: Run, touched: set<Lang>)
    requires Inv(s) && StepOf(s, s', i, a, touched)
    requires RunOk(s'.slots, HalfReported(s', a.lang), i, a)
    requires forall l :: i in At(s'.slots, l).backups ==> a.Install? && l in a.settled
    requires forall l :: l in touched ==> SlotOk(s', l)
    requires forall l :: i in s.runs && s.runs[i].TakingParserOf(l) && !a.TakingParserOf(l) ==> SlotOk(s', l)
    ensures Inv(s')
  {
    StaysExclusive(s, s', i, a, touched);
    BackupsStayNamed(s, s', i, a, touched);
    RunsStayOk(s, s', i, a, touched);
    forall l
      ensures SlotOk(s', l)
    {
      assert SlotOk(s, l);
      if l !in touched {
        SlotStaysOk(s, s', i, a, touched, l);
      }
    }
  }

  // ---------------------------------------------------------------- the steps

  /** A step that only moves its own run. */
  lemma MoveKeepsInv(s: State, i: RunId, a: Run)
    requires Inv(s)
    requires i in s.runs ==> s.runs[i].Install? == a.Install? && (a.Uninstall? ==> !s.runs[i].upc.RemovingParser?)
    requires i in s.runs ==> ReportsKept(s.runs[i], a)
    requires forall j :: j in s.runs && j != i ==> s.runs[j].Held() !! a.Held()
    requires RunOk(s.slots, HalfReported(s, a.lang), i, a)
    requires forall l :: i in At(s.slots, l).backups ==> a.Install? && l in a.settled
    ensures Inv(Move(s, i, a))
  {
    var s' := Move(s, i, a);
    assert StepOf(s, s', i, a, {});
    ReportsPersist(s, s', i, a, a.lang);
    RunFrame(s.slots, s'.slots, HalfReported(s, a.lang), HalfReported(s', a.lang), i, a);
    StepKeepsInv(s, s', i, a, {});
  }

  lemma StartKeepsInv(s: State, e: Event)
    requires Inv(s) && Enabled(s, e) && (e.StartInstall? || e.StartUninstall?)
    ensures Inv(Apply(s, e))
  {
    MoveKeepsInv(s, e.run, Apply(s, e).runs[e.run]);
  }

  lemma StageLookKeepsInv(s: State, i: RunId, staged: Option<Copy>, inherited: set<Lang>)
    requires Inv(s) && Enabled(s, StageLook(i, staged, inherited))
    ensures Inv(Apply(s, StageLook(i, staged, inherited)))
  {
    assert RunOk(s.slots, HalfReported(s, s.runs[i].lang), i, s.runs[i]);
    MoveKeepsInv(s, i, Apply(s, StageLook(i, staged, inherited)).runs[i]);
  }

  lemma StageParserKeepsInv(s: State, i: RunId, outcome: ParserStaging)
    requires Inv(s) && Enabled(s, StageParser(i, outcome))
    ensures Inv(Apply(s, StageParser(i, outcome)))
  {
    var a := s.runs[i];
    if outcome.CompileFails? {
      AbandonKeepsInv(s, i);
    } else {
      assert RunOk(s.slots, HalfReported(s, a.lang), i, a);
      MoveKeepsInv(s, i, a.(pc := Locking, parserStaged := outcome.Compiled?));
    }
  }

  lemma AbandonKeepsInv(s: State, i: RunId)
    requires Inv(s) && i in s.runs && s.runs[i].Install?
    ensures Inv(Move(s, i, s.runs[i].Abandoned()))
  {
    assert RunOk(s.slots, HalfReported(s, s.runs[i].lang), i, s.runs[i]);
    MoveKeepsInv(s, i, s.runs[i].Abandoned());
  }

  lemma TombstoneCheckKeepsInv(s: State, i: RunId)
    requires Inv(s) && Enabled(s, CheckTombstones(i))
    ensures Inv(Apply(s, CheckTombstones(i)))
  {
    var a := s.runs[i];
    if exists d | d in a.deps :: At(s.slots, d).tombstone {
      AbandonKeepsInv(s, i);
    } else {
      assert RunOk(s.slots, HalfReported(s, a.lang), i, a);
      MoveKeepsInv(s, i, a.(pc := CheckingDependencies));
    }
  }

  /** What is covered depends only on the entries still to be settled. */
  lemma CoveredFrame(slots: Disk, a: Run, a': Run)
    requires a.Install? && a'.Install?
    requires a'.deps == a.deps && a'.entries == a.entries && a'.settled == a.settled && a'.lang == a.lang
    requires forall d :: d in a.deps ==> a.Covered(slots, d)
    ensures forall d :: d in a'.deps ==> a'.Covered(slots, d)
  {
    forall d | d in a'.deps
      ensures a'.Covered(slots, d)
    {
      assert a.Covered(slots, d);
    }
  }

  lemma CheckedRunOk(slots: Disk, half: bool, i: RunId, a: Run)
    requires a.Install? && a.pc.CheckingDependencies? && RunOk(slots, half, i, a)
    requires forall d :: d in a.deps ==> a.Covered(slots, d)
    ensures RunOk(slots, half, i, a.(pc := Yielding))
  {
    CoveredFrame(slots, a, a.(pc := Yielding));
  }

  lemma DependencyCheckKeepsInv(s: State, i: RunId)
    requires Inv(s) && Enabled(s, CheckDependencies(i))
    ensures Inv(Apply(s, CheckDependencies(i)))
  {
    var a := s.runs[i];
    if forall d | d in a.deps :: a.Covered(s.slots, d) {
      assert RunOk(s.slots, HalfReported(s, a.lang), i, a);
      CheckedRunOk(s.slots, HalfReported(s, a.lang), i, a);
      MoveKeepsInv(s, i, a.(pc := Yielding));
    } else {
      AbandonKeepsInv(s, i);
    }
  }

  lemma YieldedRunOk(slots: Disk, half: bool, i: RunId, a: Run, parserStaged: bool)
    requires a.Install? && a.pc.Yielding? && RunOk(slots, half, i, a)
    ensures RunOk(slots, half, i, a.(parserStaged := parserStaged, pc := AfterEntries(a, {})))
  {
    CoveredFrame(slots, a, a.(parserStaged := parserStaged, pc := AfterEntries(a, {})));
  }

  lemma YieldKeepsInv(s: State, i: RunId)
    requires Inv(s) && Enabled(s, YieldParser(i))
    ensures Inv(Apply(s, YieldParser(i)))
  {
    var a := s.runs[i];
    var a' := Apply(s, YieldParser(i)).runs[i];
    assert RunOk(s.slots, HalfReported(s, a.lang), i, a);
    YieldedRunOk(s.slots, HalfReported(s, a.lang), i, a, a'.parserStaged);
    MoveKeepsInv(s, i, a');
  }

  lemma DoneRunOk(slots: Disk, half: bool, i: RunId, a: Run)
    requires a.Install? && a.pc.Committing? && RunOk(slots, half, i, a)
    ensures RunOk(slots, half, i, a.(pc := InstallDone(true), held := {}))
  {
  }

  lemma FinishCommitKeepsInv(s: State, i: RunId)
    requires Inv(s) && Enabled(s, FinishCommit(i))
    ensures Inv(Apply(s, FinishCommit(i)))
  {
    var a := s.runs[i];
    assert RunOk(s.slots, HalfReported(s, a.lang), i, a);
    DoneRunOk(s.slots, HalfReported(s, a.lang), i, a);
    MoveKeepsInv(s, i, a.(pc := InstallDone(true), held := {}));
  }

  lemma ProbeKeepsInv(s: State, e: Event)
    requires Inv(s) && Enabled(s, e) && (e.UninstallLockFails? || e.Probe?)
    ensures Inv(Apply(s, e))
  {
    assert RunOk(s.slots, HalfReported(s, s.runs[e.run].lang), e.run, s.runs[e.run]);
    MoveKeepsInv(s, e.run, Apply(s, e).runs[e.run]);
  }

  lemma LockKeepsInv(s: State, i: RunId, l: Lang)
    requires Inv(s) && Enabled(s, TakeLock(i, l))
    ensures Inv(Apply(s, TakeLock(i, l)))
  {
    var a := s.runs[i];
    assert RunOk(s.slots, HalfReported(s, a.lang), i, a);
    forall j | j in s.runs && j != i
      ensures s.runs[j].Held() !! a.held + {l}
    {
      assert s.runs[j].Held() !! a.Held();
    }
    MoveKeepsInv(s, i, a.(held := a.held + {l}, pc := AfterLocks(a, a.held + {l})));
  }

  lemma UninstallLockKeepsInv(s: State, i: RunId)
    requires Inv(s) && Enabled(s, TakeUninstallLock(i))
    ensures Inv(Apply(s, TakeUninstallLock(i)))
  {
    assert RunOk(s.slots, HalfReported(s, s.runs[i].lang), i, s.runs[i]);
    MoveKeepsInv(s, i, s.runs[i].(upc := Probing));
  }

  function WriteMove(s: State, i: RunId, l: Lang, slot: Slot, a: Run): State {
    Move(Write(s, l, slot), i, a)
  }

  /** A step that moves its own run and rewrites one slot no other run holds. */
  lemma WriteKeepsInv(s: State, i: RunId, l: Lang, slot: Slot, a: Run)
    requires Inv(s) && i in s.runs
    requires s.runs[i].Install? == a.Install?
    requires ReportsKept(s.runs[i], a)
    requires forall j :: j in s.runs && j != i ==> l !in s.runs[j].Held()
    requires a.Held() <= s.runs[i].Held()
    requires slot.backups.Keys <= At(s.slots, l).backups.Keys + (if a.Install? && l in a.settled then {i} else {})
    requires s.runs[i].Install? ==> s.runs[i].settled <= a.settled
    requires RunOk(s.slots[l := slot], HalfReported(WriteMove(s, i, l, slot, a), a.lang), i, a)
    requires SlotOk(WriteMove(s, i, l, slot, a), l)
    requires forall m :: s.runs[i].TakingParserOf(m) ==> m == l
    ensures Inv(WriteMove(s, i, l, slot, a))
  {
    var s' := WriteMove(s, i, l, slot, a);
    forall m | m != l
      ensures At(s'.slots, m) == At(s.slots, m)
    {
    }
    assert At(s'.slots, l) == slot;
    forall j | j in s.runs && j != i
      ensures s.runs[j].Held() !! {l} + a.Held()
    {
      assert s.runs[j].Held() !! s.runs[i].Held();
    }
    assert StepOf(s, s', i, a, {l});
    StepKeepsInv(s, s', i, a, {l});
  }

  /** A slot held by a run that is not between the two removals is paired. */
  lemma HeldSlotPaired(s: State, i: RunId, l: Lang)
    requires Inv(s) && i in s.runs && l in s.runs[i].Held() && !s.runs[i].TakingParserOf(l)
    ensures HalfReported(s, l) || At(s.slots, l).Paired()
  {
    assert SlotOk(s, l);
    if j :| j in s.runs && s.runs[j].TakingParserOf(l) {
      assert s.runs[j].Held() !! s.runs[i].Held();
    }
  }

  lemma HeldByNoOther(s: State, i: RunId, l: Lang)
    requires Inv(s) && i in s.runs && l in s.runs[i].Held()
    ensures forall j :: j in s.runs && j != i ==> l !in s.runs[j].Held()
  {
    forall j | j in s.runs && j != i
      ensures l !in s.runs[j].Held()
    {
      assert s.runs[j].Held() !! s.runs[i].Held();
    }
  }

  lemma StageClearKeepsInv(s: State, i: RunId, l: Lang)
    requires Inv(s) && Enabled(s, StageClear(i, l))
    ensures Inv(Apply(s, StageClear(i, l)))
  {
    var a := s.runs[i];
    var a' := a.(looking := Some(l), todo := a.todo - {l}, deps := a.deps + {l});
    var slot := At(s.slots, l).(tombstone := false);
    var s' := WriteMove(s, i, l, slot, a');
    assert RunOk(s.slots, HalfReported(s, a.lang), i, a);
    assert SlotOk(s', l) by {
      assert SlotOk(s, l);
      ReportsPersist(s, s', i, a', l);
      if j :| j in s.runs && s.runs[j].TakingParserOf(l) {
        assert false;
      }
    }
    WriteKeepsInv(s, i, l, slot, a');
  }

  lemma CommittedRunOk(slots: Disk, half: bool, half': bool, i: RunId, a: Run, l: Lang, slot: Slot)
    requires a.Install? && a.pc.Committing? && l in a.published && RunOk(slots, half, i, a) && (half ==> half')
    requires slot == At(slots, l).(backups := slot.backups)
    ensures RunOk(slots[l := slot], half', i, a.(published := a.published - {l}))
  {
    assert forall d :: d != l ==> At(slots[l := slot], d) == At(slots, d);
    forall d | d in a.deps
      ensures a.(published := a.published - {l}).Covered(slots[l := slot], d)
    {
      assert a.Covered(slots, d);
    }
  }

  lemma CommitEntryKeepsInv(s: State, i: RunId, l: Lang, discardFails: bool)
    requires Inv(s) && Enabled(s, CommitEntry(i, l, discardFails))
    ensures Inv(Apply(s, CommitEntry(i, l, discardFails)))
  {
    var a := s.runs[i];
    var a' := a.(published := a.published - {l});
    var slot := DiscardBackup(At(s.slots, l), i, discardFails);
    assert RunOk(s.slots, HalfReported(s, a.lang), i, a);
    HeldByNoOther(s, i, l);
    ReportsCarry(s, i, l, slot, a');
    CommittedRunOk(s.slots, HalfReported(s, a.lang), HalfReported(WriteMove(s, i, l, slot, a'), a.lang), i, a, l, slot);
    WriteKeepsInv(s, i, l, slot, a');
  }

  /** Reports about the written language, and about the run's own, outlive the step. */
  lemma ReportsCarry(s: State, i: RunId, l: Lang, slot: Slot, a: Run)
    requires i in s.runs && ReportsKept(s.runs[i], a)
    ensures var s' := WriteMove(s, i, l, slot, a);
            && (HalfReported(s, l) || ReportsHalfLanguage(a, l) ==> HalfReported(s', l))
            && (HalfReported(s, a.lang) || ReportsHalfLanguage(a, a.lang) ==> HalfReported(s', a.lang))
  {
    ReportsPersist(s, WriteMove(s, i, l, slot, a), i, a, l);
    ReportsPersist(s, WriteMove(s, i, l, slot, a), i, a, a.lang);
  }

  // ---------------------------------------------------------------- publishing one entry

  /** Dependencies stay covered when one entry is settled by a live copy that is covered. */
  lemma SettleKeepsCovered(slots: Disk, a: Run, l: Lang, slots': Disk, a': Run)
    requires a.Install? && a'.Install? && l in a.entries && l !in a.settled
    requires a'.settled == a.settled + {l} && a'.deps == a.deps && a'.entries == a.entries && a'.lang == a.lang
    requires forall d :: d in a.deps ==> a.Covered(slots, d)
    requires forall d :: d in a.deps && d != l ==> At(slots', d) == At(slots, d)
    requires At(slots', l).Complete() && At(slots', l).queries.value.Parents(l == a.lang) <= a.deps
    ensures forall d :: d in a'.deps ==> a'.Covered(slots', d)
  {
    forall d | d in a'.deps
      ensures a'.Covered(slots', d)
    {
      assert a.Covered(slots, d);
      if d != l {
        assert a'.Prepared(slots', d) == a.Prepared(slots, d);
      }
    }
  }

  function Settle(a: Run, l: Lang, publishes: bool): Run
    requires a.Install?
  {
    a.(settled := a.settled + {l}, published := if publishes then a.published + {l} else a.published,
       pc := AfterEntries(a, a.settled + {l}))
  }

  predicate PublishesNext(i: RunId, a: Run, l: Lang)
  {
    && a.Install? && a.pc.Publishing? && l in a.entries.Keys - a.settled
    && (l == a.lang ==> a.entries.Keys - a.settled == {l})
  }

  lemma SettledShape(i: RunId, a: Run, l: Lang, publishes: bool)
    requires PublishesNext(i, a, l) && InstallShape(i, a)
    ensures InstallShape(i, Settle(a, l, publishes))
  {
    if a.lang in a.settled + {l} {
      assert a.settled + {l} == a.entries.Keys;
    }
  }

  lemma PublishedEntryRunOk(slots: Disk, half: bool, half': bool, i: RunId, a: Run, l: Lang, fault: PublishFault)
    requires PublishesNext(i, a, l) && RunOk(slots, half, i, a) && (half ==> half')
    requires l == a.lang ==> half || At(slots, l).Paired()
    requires PublishQueries(At(slots, l), a.entries[l], a.Forces(l), i, fault).1.Published?
    ensures var slot := PublishQueries(At(slots, l), a.entries[l], a.Forces(l), i, fault).0;
            RunOk(slots[l := slot], half', i, Settle(a, l, true))
  {
    var slots' := slots[l := PublishQueries(At(slots, l), a.entries[l], a.Forces(l), i, fault).0];
    var a' := Settle(a, l, true);
    SettledShape(i, a, l, true);
    forall d | d != l
      ensures At(slots', d) == At(slots, d)
    {
    }
    assert a.Covered(slots, l);
    SettleKeepsCovered(slots, a, l, slots', a');
  }

  lemma PublishedEntryKeepsInv(s: State, i: RunId, l: Lang, fault: PublishFault)
    requires Inv(s) && Enabled(s, PublishEntry(i, l, fault))
    requires PublishQueries(At(s.slots, l), s.runs[i].entries[l], s.runs[i].Forces(l), i, fault).1.Published?
    ensures Inv(Apply(s, PublishEntry(i, l, fault)))
  {
    var a := s.runs[i];
    var slot := PublishQueries(At(s.slots, l), a.entries[l], a.Forces(l), i, fault).0;
    assert RunOk(s.slots, HalfReported(s, a.lang), i, a);
    HeldByNoOther(s, i, l);
    HeldSlotPaired(s, i, l);
    ReportsCarry(s, i, l, slot, Settle(a, l, true));
    assert slot.backups.Keys <= At(s.slots, l).backups.Keys + {i} && slot.Paired();
    PublishedEntryRunOk(s.slots, HalfReported(s, a.lang),
                        HalfReported(WriteMove(s, i, l, slot, Settle(a, l, true)), a.lang), i, a, l, fault);
    WriteKeepsInv(s, i, l, slot, Settle(a, l, true));
  }

  lemma KeptEntryKeepsInv(s: State, i: RunId, l: Lang, fault: PublishFault)
    requires Inv(s) && Enabled(s, PublishEntry(i, l, fault))
    requires PublishQueries(At(s.slots, l), s.runs[i].entries[l], s.runs[i].Forces(l), i, fault).1.AlreadyComplete?
    ensures Inv(Apply(s, PublishEntry(i, l, fault)))
  {
    var a := s.runs[i];
    assert RunOk(s.slots, HalfReported(s, a.lang), i, a);
    SettledShape(i, a, l, false);
    if At(s.slots, l).queries.value.Parents(l == a.lang) <= a.deps {
      SettleKeepsCovered(s.slots, a, l, s.slots, Settle(a, l, false));
      MoveKeepsInv(s, i, Settle(a, l, false));
    } else {
      FailedMoveKeepsInv(s, i, l);
    }
  }

  lemma FailedMoveKeepsInv(s: State, i: RunId, l: Lang)
    requires Inv(s) && i in s.runs && PublishesNext(i, s.runs[i], l)
    ensures Inv(Move(s, i, s.runs[i].(settled := s.runs[i].settled + {l}, pc := RollingBack)))
  {
    var a := s.runs[i];
    assert RunOk(s.slots, HalfReported(s, a.lang), i, a);
    SettledShape(i, a, l, false);
    MoveKeepsInv(s, i, a.(settled := a.settled + {l}, pc := RollingBack));
  }

  function Fail(a: Run, l: Lang, stranded: bool): Run
    requires a.Install?
  {
    a.(settled := a.settled + {l}, pc := RollingBack, residue := if stranded then Some(QueriesStranded) else a.residue)
  }

  lemma FailedShape(i: RunId, a: Run, l: Lang, stranded: bool)
    requires PublishesNext(i, a, l) && InstallShape(i, a)
    ensures InstallShape(i, Fail(a, l, stranded))
  {
    SettledShape(i, a, l, false);
  }

  lemma FailedOwns(slots: Disk, half: bool, half': bool, i: RunId, a: Run, l: Lang, slot: Slot, stranded: bool)
    requires PublishesNext(i, a, l) && InstallShape(i, a) && InstallOwns(slots, half, i, a)
    requires half || stranded ==> half'
    requires slot.tombstone == At(slots, l).tombstone && (!stranded ==> slot == At(slots, l))
    ensures InstallOwns(slots[l := slot], half', i, Fail(a, l, stranded))
  {
    assert forall d :: d != l ==> At(slots[l := slot], d) == At(slots, d);
  }

  lemma FailedEntryRunOk(slots: Disk, half: bool, half': bool, i: RunId, a: Run, l: Lang, slot: Slot, stranded: bool)
    requires PublishesNext(i, a, l) && RunOk(slots, half, i, a) && (half || stranded ==> half')
    requires slot.tombstone == At(slots, l).tombstone && (!stranded ==> slot == At(slots, l))
    ensures RunOk(slots[l := slot], half', i, Fail(a, l, stranded))
  {
    FailedShape(i, a, l, stranded);
    FailedOwns(slots, half, half', i, a, l, slot, stranded);
  }

  lemma FailedWriteKeepsInv(s: State, i: RunId, l: Lang, slot: Slot, stranded: bool)
    requires Inv(s) && i in s.runs && PublishesNext(i, s.runs[i], l)
    requires slot.tombstone == At(s.slots, l).tombstone && (!stranded ==> slot == At(s.slots, l))
    requires slot.backups.Keys <= At(s.slots, l).backups.Keys + {i}
    ensures Inv(WriteMove(s, i, l, slot, Fail(s.runs[i], l, stranded)))
  {
    var a := s.runs[i];
    var a' := Fail(a, l, stranded);
    assert RunOk(s.slots, HalfReported(s, a.lang), i, a);
    HeldByNoOther(s, i, l);
    HeldSlotPaired(s, i, l);
    ReportsCarry(s, i, l, slot, a');
    FailedEntryRunOk(s.slots, HalfReported(s, a.lang), HalfReported(WriteMove(s, i, l, slot, a'), a.lang), i, a, l,
                     slot, stranded);
    WriteKeepsInv(s, i, l, slot, a');
  }

  lemma FailedEntryKeepsInv(s: State, i: RunId, l: Lang, fault: PublishFault)
    requires Inv(s) && Enabled(s, PublishEntry(i, l, fault))
    requires PublishQueries(At(s.slots, l), s.runs[i].entries[l], s.runs[i].Forces(l), i, fault).1.PublishFailed?
    ensures Inv(Apply(s, PublishEntry(i, l, fault)))
  {
    var a := s.runs[i];
    var (slot, outcome) := PublishQueries(At(s.slots, l), a.entries[l], a.Forces(l), i, fault);
    UnpublishedLeavesSlot(At(s.slots, l), a.entries[l], a.Forces(l), i, fault);
    FailedWriteKeepsInv(s, i, l, slot, outcome.stranded);
  }

  // ---------------------------------------------------------------- the parser

  lemma ParserRunOk(slots: Disk, half: bool, half': bool, i: RunId, a: Run, windows: bool, fault: ParserFault)
    requires a.Install? && a.pc.PublishingParser? && RunOk(slots, half, i, a) && (half ==> half')
    ensures var (slot, ok) := PublishParser(At(slots, a.lang), i, windows, fault);
            RunOk(slots[a.lang := slot], half', i,
                  a.(pc := if ok then Committing else RollingBack, parserLost := !ok && slot != At(slots, a.lang)))
  {
    var (slot, ok) := PublishParser(At(slots, a.lang), i, windows, fault);
    var slots' := slots[a.lang := slot];
    var a' := a.(pc := if ok then Committing else RollingBack, parserLost := !ok && slot != At(slots, a.lang));
    assert forall d :: d != a.lang ==> At(slots', d) == At(slots, d);
    forall d | d in a.deps
      ensures a'.Covered(slots', d)
    {
      assert a.Covered(slots, d);
    }
  }

  lemma StagedParserKeepsInv(s: State, i: RunId, fault: ParserFault)
    requires Inv(s) && AtInstall(s, i, PublishingParser)
    ensures var a := s.runs[i];
            var (slot, ok) := PublishParser(At(s.slots, a.lang), i, s.windows, fault);
            Inv(WriteMove(s, i, a.lang, slot,
                          a.(pc := if ok then Committing else RollingBack,
                             parserLost := !ok && slot != At(s.slots, a.lang))))
  {
    var a := s.runs[i];
    var (slot, ok) := PublishParser(At(s.slots, a.lang), i, s.windows, fault);
    var a' := a.(pc := if ok then Committing else RollingBack, parserLost := !ok && slot != At(s.slots, a.lang));
    assert RunOk(s.slots, HalfReported(s, a.lang), i, a);
    assert a.Covered(s.slots, a.lang);
    HeldByNoOther(s, i, a.lang);
    ReportsCarry(s, i, a.lang, slot, a');
    assert slot.Paired() && slot.backups == At(s.slots, a.lang).backups;
    ParserRunOk(s.slots, HalfReported(s, a.lang), HalfReported(WriteMove(s, i, a.lang, slot, a'), a.lang), i, a,
                s.windows, fault);
    WriteKeepsInv(s, i, a.lang, slot, a');
  }

  lemma ParserKeepsInv(s: State, i: RunId, fault: ParserFault)
    requires Inv(s) && Enabled(s, PublishTheParser(i, fault))
    ensures Inv(Apply(s, PublishTheParser(i, fault)))
  {
    if s.runs[i].parserStaged {
      StagedParserKeepsInv(s, i, fault);
    } else {
      FoundParserKeepsInv(s, i);
    }
  }

  lemma FoundParserRunOk(slots: Disk, half: bool, i: RunId, a: Run)
    requires a.Install? && a.pc.PublishingParser? && RunOk(slots, half, i, a)
    ensures RunOk(slots, half, i, a.(pc := RollingBack))
    ensures At(slots, a.lang).parser.ParserFile? ==> RunOk(slots, half, i, a.(pc := Committing))
  {
    CoveredFrame(slots, a, a.(pc := Committing));
  }

  lemma FoundParserKeepsInv(s: State, i: RunId)
    requires Inv(s) && AtInstall(s, i, PublishingParser)
    ensures At(s.slots, s.runs[i].lang).parser.ParserFile? ==> Inv(Move(s, i, s.runs[i].(pc := Committing)))
    ensures Inv(Move(s, i, s.runs[i].(pc := RollingBack)))
  {
    var a := s.runs[i];
    assert RunOk(s.slots, HalfReported(s, a.lang), i, a);
    FoundParserRunOk(s.slots, HalfReported(s, a.lang), i, a);
    MoveKeepsInv(s, i, a.(pc := RollingBack));
    if At(s.slots, a.lang).parser.ParserFile? {
      MoveKeepsInv(s, i, a.(pc := Committing));
    }
  }

  // ---------------------------------------------------------------- rolling back

  lemma UndoneRunOk(slots: Disk, half: bool, half': bool, i: RunId, a: Run, slot: Slot,
                    residue: Option<RollbackResidue>)
    requires a.Install? && a.pc.RollingBack? && a.lang in a.published && RunOk(slots, half, i, a) && (half ==> half')
    requires slot.tombstone == At(slots, a.lang).tombstone
    ensures RunOk(slots[a.lang := slot], half', i, a.(published := a.published - {a.lang}, residue := residue))
  {
    assert forall d :: d != a.lang ==> At(slots[a.lang := slot], d) == At(slots, d);
  }

  lemma UndoKeepsInv(s: State, i: RunId, fault: UndoFault, discardFails: bool)
    requires Inv(s) && i in s.runs && Enabled(s, RollBackEntry(i, s.runs[i].lang, fault, discardFails))
    ensures Inv(Apply(s, RollBackEntry(i, s.runs[i].lang, fault, discardFails)))
  {
    var a := s.runs[i];
    var l := a.lang;
    var (slot, outcome) := UndoPublish(At(s.slots, l), i, fault);
    var residue := if ResidueOf(outcome).Some? then ResidueOf(outcome) else a.residue;
    var a' := a.(published := a.published - {l}, residue := residue);
    assert RunOk(s.slots, HalfReported(s, a.lang), i, a);
    HeldByNoOther(s, i, l);
    HeldSlotPaired(s, i, l);
    ReportsCarry(s, i, l, slot, a');
    UndoneRunOk(s.slots, HalfReported(s, a.lang), HalfReported(WriteMove(s, i, l, slot, a'), a.lang), i, a, slot,
                residue);
    WriteKeepsInv(s, i, l, slot, a');
  }

  lemma DiscardedRunOk(slots: Disk, half: bool, half': bool, i: RunId, a: Run, l: Lang, slot: Slot)
    requires a.Install? && a.pc.RollingBack? && l in a.published && l != a.lang && RunOk(slots, half, i, a)
    requires half ==> half'
    requires slot == At(slots, l).(backups := slot.backups)
    ensures RunOk(slots[l := slot], half', i, a.(published := a.published - {l}))
  {
    assert forall d :: d != l ==> At(slots[l := slot], d) == At(slots, d);
  }

  lemma DiscardKeepsInv(s: State, i: RunId, l: Lang, fault: UndoFault, discardFails: bool)
    requires Inv(s) && Enabled(s, RollBackEntry(i, l, fault, discardFails)) && l != s.runs[i].lang
    ensures Inv(Apply(s, RollBackEntry(i, l, fault, discardFails)))
  {
    var a := s.runs[i];
    var slot := DiscardBackup(At(s.slots, l), i, discardFails);
    var a' := a.(published := a.published - {l});
    assert RunOk(s.slots, HalfReported(s, a.lang), i, a);
    HeldByNoOther(s, i, l);
    HeldSlotPaired(s, i, l);
    ReportsCarry(s, i, l, slot, a');
    DiscardedRunOk(s.slots, HalfReported(s, a.lang), HalfReported(WriteMove(s, i, l, slot, a'), a.lang), i, a, l, slot);
    WriteKeepsInv(s, i, l, slot, a');
  }

  // ---------------------------------------------------------------- uninstalling

  lemma RemoveQueriesKeepsInv(s: State, i: RunId, fault: RemovalFault)
    requires Inv(s) && Enabled(s, RemoveTheQueries(i, fault))
    ensures Inv(Apply(s, RemoveTheQueries(i, fault)))
  {
    var a := s.runs[i];
    var (slot, removal) := RemoveQueries(At(s.slots, a.lang), fault);
    var a' := a.(upc := if removal.queriesAbsent then RemovingParser else UninstallDone, queriesFailed := !removal.ok);
    var s' := WriteMove(s, i, a.lang, slot, a');
    assert RunOk(s.slots, HalfReported(s, a.lang), i, a);
    HeldByNoOther(s, i, a.lang);
    HeldSlotPaired(s, i, a.lang);
    ReportsCarry(s, i, a.lang, slot, a');
    assert SlotOk(s', a.lang) by {
      assert s'.runs[i] == a';
    }
    WriteKeepsInv(s, i, a.lang, slot, a');
  }

  lemma RemoveParserKeepsInv(s: State, i: RunId, fails: bool)
    requires Inv(s) && Enabled(s, RemoveTheParser(i, fails))
    ensures Inv(Apply(s, RemoveTheParser(i, fails)))
  {
    var a := s.runs[i];
    assert RunOk(s.slots, HalfReported(s, a.lang), i, a);
    HeldByNoOther(s, i, a.lang);
    if a.entry {
      var slot := RemoveParser(At(s.slots, a.lang), fails);
      var a' := a.(upc := UninstallDone, parserFailed := fails);
      ReportsCarry(s, i, a.lang, slot, a');
      WriteKeepsInv(s, i, a.lang, slot, a');
    } else {
      var a' := a.(upc := UninstallDone);
      var s' := Move(s, i, a');
      assert StepOf(s, s', i, a', {});
      ReportsPersist(s, s', i, a', a'.lang);
      StepKeepsInv(s, s', i, a', {});
    }
  }

  // ---------------------------------------------------------------- recovery

  /** Recovery and collection run without the language's lock, yet never touch
      anything a transaction relies on. */
  lemma BackgroundKeepsInv(s: State, e: Event)
    requires Inv(s) && Enabled(s, e) && (e.RecoverBackup? || e.CollectBackup?)
    ensures Inv(Apply(s, e))
  {
    var s' := Apply(s, e);
    var l := e.lang;
    assert forall d :: d != l ==> At(s'.slots, d) == At(s.slots, d);
    assert s'.runs == s.runs;
    assert forall m :: HalfReported(s', m) == HalfReported(s, m);
    forall i | i in s.runs
      ensures RunOk(s'.slots, HalfReported(s', s.runs[i].lang), i, s.runs[i])
    {
      assert RunOk(s.slots, HalfReported(s, s.runs[i].lang), i, s.runs[i]);
      BackgroundRunOk(s.slots, HalfReported(s, s.runs[i].lang), i, s.runs[i], l, At(s'.slots, l), e.backup);
      RunFrame(s.slots[l := At(s'.slots, l)], s'.slots, HalfReported(s, s.runs[i].lang),
               HalfReported(s, s.runs[i].lang), i, s.runs[i]);
    }
    forall m
      ensures SlotOk(s', m)
    {
      assert SlotOk(s, m);
    }
  }

  lemma BackgroundRunOk(slots: Disk, half: bool, i: RunId, a: Run, l: Lang, slot: Slot, b: RunId)
    requires RunOk(slots, half, i, a)
    requires slot == At(slots, l).(queries := slot.queries, backups := At(slots, l).backups - {b})
    requires slot.queries == At(slots, l).queries || At(slots, l).queries.None?
    requires b == i && !a.Finished() ==> At(slots, l).queries.None?
    ensures RunOk(slots[l := slot], half, i, a)
  {
    assert forall d :: d != l ==> At(slots[l := slot], d) == At(slots, d);
    if a.Install? {
      forall d | d in a.deps && a.Covered(slots, d)
        ensures a.Covered(slots[l := slot], d)
      {
      }
    }
  }

  // ---------------------------------------------------------------- every step, every run

  /** The steps of an install that holds its locks. */
  predicate IsTransactional(e: Event) {
    || e.CheckTombstones? || e.CheckDependencies? || e.YieldParser? || e.PublishEntry? || e.PublishTheParser?
    || e.RollBackEntry? || e.FinishRollback? || e.CommitEntry? || e.FinishCommit?
  }

  lemma TransactionKeepsInv(s: State, e: Event)
    requires Inv(s) && Enabled(s, e) && IsTransactional(e)
    ensures Inv(Apply(s, e))
  {
    match e
    case CheckTombstones(i) => TombstoneCheckKeepsInv(s, i);
    case CheckDependencies(i) => DependencyCheckKeepsInv(s, i);
    case YieldParser(i) => YieldKeepsInv(s, i);
    case PublishEntry(i, l, fault) =>
      var outcome := PublishQueries(At(s.slots, l), s.runs[i].entries[l], s.runs[i].Forces(l), i, fault).1;
      match outcome {
        case Published => PublishedEntryKeepsInv(s, i, l, fault);
        case AlreadyComplete => KeptEntryKeepsInv(s, i, l, fault);
        case Uninstalled => FailedMoveKeepsInv(s, i, l);
        case PublishFailed(_) => FailedEntryKeepsInv(s, i, l, fault);
      }
    case PublishTheParser(i, fault) => ParserKeepsInv(s, i, fault);
    case RollBackEntry(i, l, fault, discardFails) =>
      if l == s.runs[i].lang {
        UndoKeepsInv(s, i, fault, discardFails);
      } else {
        DiscardKeepsInv(s, i, l, fault, discardFails);
      }
    case FinishRollback(i) => AbandonKeepsInv(s, i);
    case CommitEntry(i, l, discardFails) => CommitEntryKeepsInv(s, i, l, discardFails);
    case FinishCommit(i) => FinishCommitKeepsInv(s, i);
  }

  lemma EventKeepsInv(s: State, e: Event)
    requires Inv(s) && Enabled(s, e)
    ensures Inv(Apply(s, e))
  {
    if IsTransactional(e) {
      TransactionKeepsInv(s, e);
      return;
    }
    match e
    case StartInstall(_, _, _) => StartKeepsInv(s, e);
    case StartUninstall(_, _) => StartKeepsInv(s, e);
    case StageClear(i, l) => StageClearKeepsInv(s, i, l);
    case StageLook(i, staged, inherited) => StageLookKeepsInv(s, i, staged, inherited);
    case StageFails(i) => AbandonKeepsInv(s, i);
    case StageParser(i, outcome) => StageParserKeepsInv(s, i, outcome);
    case TakeLock(i, l) => LockKeepsInv(s, i, l);
    case LockFails(i) => AbandonKeepsInv(s, i);
    case TakeUninstallLock(i) => UninstallLockKeepsInv(s, i);
    case UninstallLockFails(_) => ProbeKeepsInv(s, e);
    case Probe(_, _) => ProbeKeepsInv(s, e);
    case RemoveTheQueries(i, fault) => RemoveQueriesKeepsInv(s, i, fault);
    case RemoveTheParser(i, fails) => RemoveParserKeepsInv(s, i, fails);
    case RecoverBackup(_, _) => BackgroundKeepsInv(s, e);
    case CollectBackup(_, _) => BackgroundKeepsInv(s, e);
  }

  /** An interleaving: a state before and after every event. */
  ghost predicate IsRun(states: seq<State>, events: seq<Event>) {
    && |states| == |events| + 1
    && forall k :: 0 <= k < |events| ==> Enabled(states[k], events[k]) && states[k + 1] == Apply(states[k], events[k])
  }

  /** No run has started, and the disk holds no parser without queries. */
  ghost predicate Starts(s: State) {
    s.runs == map[] && forall l :: At(s.slots, l).Paired()
  }

  lemma {:induction false} ReachableInv(states: seq<State>, events: seq<Event>, k: nat)
    requires IsRun(states, events) && Starts(states[0]) && k < |states|
    ensures Inv(states[k])
  {
    if k == 0 {
      forall l
        ensures SlotOk(states[0], l)
      {
        assert At(states[0].slots, l).Paired();
      }
    } else {
      ReachableInv(states, events, k - 1);
      EventKeepsInv(states[k - 1], events[k - 1]);
    }
  }

  // ---------------------------------------------------------------- what every interleaving guarantees

  /** Whenever a language's lock is free, a parser that is present has its
      queries beside it, unless some run reports stranded queries in a chain with
      that language, or that language's parser as one it failed to remove. */
  lemma ParserNeverWithoutQueries(states: seq<State>, events: seq<Event>, k: nat, l: Lang)
    requires IsRun(states, events) && Starts(states[0]) && k < |states|
    requires Free(states[k], l) && !HalfReported(states[k], l)
    ensures At(states[k].slots, l).Paired()
  {
    ReachableInv(states, events, k);
    assert SlotOk(states[k], l);
    if j :| j in states[k].runs && states[k].runs[j].TakingParserOf(l) {
      assert false;
    }
  }

  /** An install that commits leaves a whole language behind: its parser, its
      queries, and every language they inherit, complete and closed under inheritance. */
  lemma CommittedInstallIsWhole(states: seq<State>, events: seq<Event>, k: nat)
    requires IsRun(states, events) && Starts(states[0]) && k < |events| && events[k].FinishCommit?
    ensures var a := states[k].runs[events[k].run];
            && states[k + 1].runs[events[k].run].pc == InstallDone(true)
            && At(states[k + 1].slots, a.lang).parser.ParserFile?
            && a.lang in a.deps
            && forall d :: d in a.deps ==>
                 && At(states[k + 1].slots, d).Complete()
                 && At(states[k + 1].slots, d).queries.value.Parents(d == a.lang) <= a.deps
  {
    ReachableInv(states, events, k);
    var s, i := states[k], events[k].run;
    var a := s.runs[i];
    assert RunOk(s.slots, HalfReported(s, a.lang), i, a);
    forall d | d in a.deps
      ensures At(s.slots, d).Complete() && At(s.slots, d).queries.value.Parents(d == a.lang) <= a.deps
    {
      assert a.Covered(s.slots, d);
    }
  }

  /** Every publish happens under the published language's own lock, and every
      rollback finds exactly the copy its own run published: no other run's work
      can be undone. */
  lemma PublishAndRollbackAreExclusive(states: seq<State>, events: seq<Event>, k: nat)
    requires IsRun(states, events) && Starts(states[0]) && k < |events|
    ensures events[k].PublishEntry? || events[k].RollBackEntry? ==>
              events[k].lang in states[k].runs[events[k].run].Held()
    ensures events[k].RollBackEntry? ==>
              var a := states[k].runs[events[k].run];
              && events[k].lang in a.entries
              && At(states[k].slots, events[k].lang).queries == Some(a.entries[events[k].lang])
              && a.entries[events[k].lang].writer == events[k].run
              && !At(states[k].slots, events[k].lang).tombstone
  {
    ReachableInv(states, events, k);
    if events[k].PublishEntry? || events[k].RollBackEntry? {
      var s, i := states[k], events[k].run;
      assert RunOk(s.slots, HalfReported(s, s.runs[i].lang), i, s.runs[i]);
    }
  }
}
