/**
 Uninstalls supersede the installs that staged before them, and sorted locking
 never deadlocks.
 */
module ProtocolOrder {
  import opened LanguageSlot
  import opened InstallProtocol
  import opened ProtocolInvariant
  import opened Wrappers

  /** An event belongs to one run, or to none when it is a recovery. */
  predicate OwnedBy(e: Event, i: RunId) {
    !e.RecoverBackup? && !e.CollectBackup? && e.run == i
  }

  /** The steps of an install up to its locks. */
  predicate IsStaging(e: Event) {
    e.StartInstall? || e.StageClear? || e.StageLook? || e.StageFails? || e.StageParser? || e.TakeLock? || e.LockFails?
  }

  /** Every run but `j` may have moved. */
  ghost predicate StandsStill(s: State, s': State, j: RunId) {
    && (j in s'.runs) == (j in s.runs)
    && (j in s.runs ==> s'.runs[j] == s.runs[j])
  }

  lemma OthersStandStill(s: State, e: Event, j: RunId)
    requires Enabled(s, e) && !OwnedBy(e, j)
    ensures StandsStill(s, Apply(s, e), j)
  {
    if IsStaging(e) {
      StagingMovesOne(s, e, j);
    } else if e.PublishEntry? {
      PublishEntryMovesOne(s, e, j);
    } else if IsTransactional(e) {
      TransactionMovesOne(s, e, j);
    } else {
      UninstallMovesOne(s, e, j);
    }
  }

  lemma StagingMovesOne(s: State, e: Event, j: RunId)
    requires Enabled(s, e) && !OwnedBy(e, j) && IsStaging(e)
    ensures StandsStill(s, Apply(s, e), j)
  {
  }

  lemma PublishEntryMovesOne(s: State, e: Event, j: RunId)
    requires Enabled(s, e) && !OwnedBy(e, j) && e.PublishEntry?
    ensures StandsStill(s, Apply(s, e), j)
  {
  }

  lemma TransactionMovesOne(s: State, e: Event, j: RunId)
    requires Enabled(s, e) && !OwnedBy(e, j) && IsTransactional(e) && !e.PublishEntry?
    ensures StandsStill(s, Apply(s, e), j)
  {
  }

  lemma UninstallMovesOne(s: State, e: Event, j: RunId)
    requires Enabled(s, e) && !OwnedBy(e, j) && !IsStaging(e) && !IsTransactional(e)
    ensures StandsStill(s, Apply(s, e), j)
  {
  }

  // ---------------------------------------------------------------- tombstones

  predicate Publishes(e: Event, i: RunId) {
    (e.PublishEntry? || e.PublishTheParser?) && e.run == i
  }

  /** Some other run's staging clears the tombstone of `d`. */
  predicate ClearedByOther(e: Event, i: RunId, d: Lang) {
    e.StageClear? && e.lang == d && e.run != i
  }

  /** The install has yet to learn, under its locks, which of its dependencies are gone. */
  predicate Undecided(a: Run) {
    a.Install? && (a.pc.Staging? || a.pc.Locking?)
  }

  lemma TombstonePersists(s: State, e: Event, d: Lang)
    requires Enabled(s, e) && At(s.slots, d).tombstone
    requires !(e.StageClear? && e.lang == d)
    ensures At(Apply(s, e).slots, d).tombstone
  {
    if e.PublishEntry? {
      PublishEntryKeepsTombstone(s, e, d);
    } else if IsTransactional(e) {
      TransactionKeepsTombstone(s, e, d);
    } else if e.RemoveTheQueries? {
      RemovalKeepsTombstone(s, e, d);
    }
  }

  lemma PublishEntryKeepsTombstone(s: State, e: Event, d: Lang)
    requires Enabled(s, e) && At(s.slots, d).tombstone && e.PublishEntry?
    ensures At(Apply(s, e).slots, d).tombstone
  {
  }

  lemma TransactionKeepsTombstone(s: State, e: Event, d: Lang)
    requires Enabled(s, e) && At(s.slots, d).tombstone && IsTransactional(e) && !e.PublishEntry?
    ensures At(Apply(s, e).slots, d).tombstone
  {
  }

  lemma RemovalKeepsTombstone(s: State, e: Event, d: Lang)
    requires Enabled(s, e) && At(s.slots, d).tombstone && e.RemoveTheQueries?
    ensures At(Apply(s, e).slots, d).tombstone
  {
  }

  predicate Superseded(s: State, i: RunId, d: Lang) {
    && i in s.runs && s.runs[i].Install? && d in s.runs[i].deps
    && At(s.slots, d).tombstone
    && (Undecided(s.runs[i]) || s.runs[i].pc.CheckingTombstones? || s.runs[i].pc == InstallDone(false))
  }

  lemma SupersededStays(s: State, e: Event, i: RunId, d: Lang)
    requires Inv(s) && Enabled(s, e) && Superseded(s, i, d) && !ClearedByOther(e, i, d)
    ensures Superseded(Apply(s, e), i, d) && !Publishes(e, i)
  {
    if OwnedBy(e, i) {
      assert InstallShape(i, s.runs[i]) by {
        assert RunOk(s.slots, HalfReported(s, s.runs[i].lang), i, s.runs[i]);
      }
      SupersededRunStays(s, e, i, d);
    } else {
      OthersStandStill(s, e, i);
      TombstonePersists(s, e, d);
    }
  }

  lemma SupersededRunStays(s: State, e: Event, i: RunId, d: Lang)
    requires Enabled(s, e) && OwnedBy(e, i) && Superseded(s, i, d) && InstallShape(i, s.runs[i])
    ensures Superseded(Apply(s, e), i, d) && !Publishes(e, i)
  {
    TombstonePersists(s, e, d);
    if e.CheckTombstones? {
      assert At(s.slots, d).tombstone;
    }
  }

  lemma SupersededNext(states: seq<State>, events: seq<Event>, k: nat, i: RunId, d: Lang)
    requires IsRun(states, events) && Starts(states[0]) && k < |events|
    requires Superseded(states[k], i, d) && !ClearedByOther(events[k], i, d)
    ensures Superseded(states[k + 1], i, d) && !Publishes(events[k], i)
  {
    ReachableInv(states, events, k);
    SupersededStays(states[k], events[k], i, d);
  }

  lemma {:induction false} SupersededThroughout(states: seq<State>, events: seq<Event>, b: nat, k: nat, i: RunId,
                                                d: Lang)
    requires IsRun(states, events) && Starts(states[0]) && b <= k < |events|
    requires Superseded(states[b], i, d)
    requires forall m :: b <= m <= k ==> !ClearedByOther(events[m], i, d)
    ensures Superseded(states[k], i, d) && !Publishes(events[k], i)
  {
    if b < k {
      SupersededThroughout(states, events, b, k - 1, i, d);
      SupersededNext(states, events, k - 1, i, d);
    }
    SupersededNext(states, events, k, i, d);
  }

  lemma OthersKeepUndecided(s: State, e: Event, i: RunId)
    requires Enabled(s, e) && i in s.runs
    ensures i in Apply(s, e).runs && (Undecided(Apply(s, e).runs[i]) ==> Undecided(s.runs[i]))
  {
    if !OwnedBy(e, i) {
      OthersStandStill(s, e, i);
    } else if IsEarly(e) {
      EarlyMovesKeepUndecided(s, e, i);
    } else {
      LateMovesKeepUndecided(s, e, i);
    }
  }

  /** The moves of a run up to its locks and checks. */
  predicate IsEarly(e: Event) {
    || e.StageClear? || e.StageLook? || e.StageFails? || e.StageParser? || e.TakeLock? || e.LockFails?
    || e.CheckTombstones? || e.CheckDependencies? || e.YieldParser?
  }

  lemma EarlyMovesKeepUndecided(s: State, e: Event, i: RunId)
    requires Enabled(s, e) && i in s.runs && OwnedBy(e, i) && IsEarly(e)
    ensures i in Apply(s, e).runs && (Undecided(Apply(s, e).runs[i]) ==> Undecided(s.runs[i]))
  {
  }

  /** Publishing an entry settles it, and goes on or rolls back. */
  lemma PublishEntryMoves(s: State, i: RunId, l: Lang, fault: PublishFault)
    requires Enabled(s, PublishEntry(i, l, fault))
    ensures var a, a' := s.runs[i], Apply(s, PublishEntry(i, l, fault)).runs[i];
            && a'.Install? && a'.settled == a.settled + {l} && a'.entries == a.entries
            && (a'.pc == RollingBack || a'.pc == AfterEntries(a, a'.settled))
  {
    var a := s.runs[i];
    match PublishQueries(At(s.slots, l), a.entries[l], a.Forces(l), i, fault).1
    case Published =>
    case AlreadyComplete =>
    case Uninstalled =>
    case PublishFailed(_) =>
  }

  lemma LateMovesKeepUndecided(s: State, e: Event, i: RunId)
    requires Enabled(s, e) && i in s.runs && OwnedBy(e, i) && !IsEarly(e)
    ensures i in Apply(s, e).runs && (Undecided(Apply(s, e).runs[i]) ==> Undecided(s.runs[i]))
  {
    if e.PublishEntry? {
      PublishEntryMoves(s, e.run, e.lang, e.publishFault);
    } else if IsTransactional(e) {
      TransactionMovesKeepUndecided(s, e, i);
    } else {
      UninstallMovesKeepUndecided(s, e, i);
    }
  }

  lemma TransactionMovesKeepUndecided(s: State, e: Event, i: RunId)
    requires Enabled(s, e) && i in s.runs && OwnedBy(e, i) && !IsEarly(e) && IsTransactional(e) && !e.PublishEntry?
    ensures i in Apply(s, e).runs && !Undecided(Apply(s, e).runs[i])
  {
  }

  lemma UninstallMovesKeepUndecided(s: State, e: Event, i: RunId)
    requires Enabled(s, e) && i in s.runs && OwnedBy(e, i) && !IsEarly(e) && !IsTransactional(e)
    ensures i in Apply(s, e).runs && !Undecided(Apply(s, e).runs[i])
  {
  }

  /** A run never returns to staging or locking, so whoever is still there has published nothing. */
  lemma {:induction false} UndecidedBefore(states: seq<State>, events: seq<Event>, k: nat, b: nat, i: RunId)
    requires IsRun(states, events) && k <= b < |states|
    requires i in states[b].runs && Undecided(states[b].runs[i])
    ensures i in states[k].runs ==> Undecided(states[k].runs[i])
    decreases b - k
  {
    if k < b {
      UndecidedBefore(states, events, k + 1, b, i);
      if i in states[k].runs {
        OthersKeepUndecided(states[k], events[k], i);
      }
    }
  }

  /** An install that visited a language before an uninstall of it wrote its
      tombstone, and has not taken its locks by then, publishes nothing - neither
      before nor after - for as long as no other run's staging clears that tombstone. */
  lemma UninstallSupersedesStagedInstall(
      states: seq<State>, events: seq<Event>, b: nat, k: nat, i: RunId, d: Lang)
    requires IsRun(states, events) && Starts(states[0]) && b < |events| && k < |events|
    requires events[b].RemoveTheQueries? && states[b].runs[events[b].run].lang == d
    requires At(states[b + 1].slots, d).tombstone
    requires i in states[b].runs && Undecided(states[b].runs[i]) && d in states[b].runs[i].deps
    requires forall m :: b < m <= k ==> !ClearedByOther(events[m], i, d)
    ensures !Publishes(events[k], i)
  {
    if k <= b {
      UndecidedBefore(states, events, k, b, i);
      assert Enabled(states[k], events[k]);
    } else {
      assert states[b + 1] == Apply(states[b], events[b]);
      assert Superseded(states[b + 1], i, d);
      SupersededThroughout(states, events, b + 1, k, i, d);
    }
  }

  // ---------------------------------------------------------------- locking order

  /** Locks are held in sorted order: everything held is below everything still wanted. */
  ghost predicate InOrder(a: Run) {
    a.Install? ==>
      && (a.pc.Locking? ==> a.held < a.deps && forall h, d :: h in a.held && d in a.deps - a.held ==> h < d)
      && (a.pc.Publishing? ==> a.settled < a.entries.Keys)
  }

  ghost predicate OrderInv(s: State) {
    forall i :: i in s.runs ==> InOrder(s.runs[i])
  }

  lemma EventKeepsOrder(s: State, e: Event)
    requires Inv(s) && OrderInv(s) && Enabled(s, e)
    ensures OrderInv(Apply(s, e))
  {
    forall j | j in Apply(s, e).runs
      ensures InOrder(Apply(s, e).runs[j])
    {
      if !OwnedBy(e, j) {
        OthersStandStill(s, e, j);
        assert InOrder(s.runs[j]);
      } else {
        if j in s.runs {
          assert InOrder(s.runs[j]) && RunOk(s.slots, HalfReported(s, s.runs[j].lang), j, s.runs[j]);
        }
        MoveKeepsOrder(s, e);
      }
    }
  }

  lemma MoveKeepsOrder(s: State, e: Event)
    requires Enabled(s, e) && !e.RecoverBackup? && !e.CollectBackup?
    requires e.run in s.runs ==>
               InOrder(s.runs[e.run]) && (s.runs[e.run].Install? ==> InstallShape(e.run, s.runs[e.run]))
    ensures InOrder(Apply(s, e).runs[e.run])
  {
    if e.TakeLock? || e.StageParser? {
      LockingKeepsOrder(s, e);
    } else if e.PublishEntry? || e.YieldParser? {
      PublishingKeepsOrder(s, e);
    } else {
      OtherMovesKeepOrder(s, e);
    }
  }

  lemma LockingKeepsOrder(s: State, e: Event)
    requires Enabled(s, e) && (e.TakeLock? || e.StageParser?) && InOrder(s.runs[e.run])
    requires InstallShape(e.run, s.runs[e.run])
    ensures InOrder(Apply(s, e).runs[e.run])
  {
    var a := s.runs[e.run];
    if e.TakeLock? {
      var held := a.held + {e.lang};
      assert held <= a.deps;
      forall h, d | h in held && d in a.deps - held
        ensures h < d
      {
        assert d in a.deps - a.held;
      }
    } else {
      assert a.held == {} && a.lang in a.deps;
    }
  }

  lemma PublishingKeepsOrder(s: State, e: Event)
    requires Enabled(s, e) && (e.PublishEntry? || e.YieldParser?) && InOrder(s.runs[e.run])
    requires InstallShape(e.run, s.runs[e.run])
    ensures InOrder(Apply(s, e).runs[e.run])
  {
    if e.PublishEntry? {
      PublishEntryKeepsOrder(s, e);
    } else {
      YieldKeepsOrder(s, e);
    }
  }

  lemma PublishEntryKeepsOrder(s: State, e: Event)
    requires Enabled(s, e) && e.PublishEntry? && InOrder(s.runs[e.run]) && InstallShape(e.run, s.runs[e.run])
    ensures InOrder(Apply(s, e).runs[e.run])
  {
    PublishEntryMoves(s, e.run, e.lang, e.publishFault);
  }

  lemma YieldKeepsOrder(s: State, e: Event)
    requires Enabled(s, e) && e.YieldParser? && InOrder(s.runs[e.run]) && InstallShape(e.run, s.runs[e.run])
    ensures InOrder(Apply(s, e).runs[e.run])
  {
  }

  lemma OtherMovesKeepOrder(s: State, e: Event)
    requires Enabled(s, e) && !e.RecoverBackup? && !e.CollectBackup? && !e.PublishEntry? && !e.YieldParser?
    requires !e.TakeLock? && !e.StageParser?
    requires e.run in s.runs ==> InOrder(s.runs[e.run])
    ensures InOrder(Apply(s, e).runs[e.run])
  {
    var a := Apply(s, e).runs[e.run];
    assert a.Install? ==> !a.pc.Locking? && !a.pc.Publishing?;
  }

  lemma {:induction false} ReachableOrder(states: seq<State>, events: seq<Event>, k: nat)
    requires IsRun(states, events) && Starts(states[0]) && k < |states|
    ensures Inv(states[k]) && OrderInv(states[k])
  {
    ReachableInv(states, events, k);
    if k > 0 {
      ReachableOrder(states, events, k - 1);
      EventKeepsOrder(states[k - 1], events[k - 1]);
    }
  }

  // ---------------------------------------------------------------- no deadlock

  /** The lock a run has to wait for before it can take its next step. */
  function Wanted(a: Run): Option<set<Lang>> {
    if a.Uninstall? then (if a.upc.Waiting? then Some({a.lang}) else None)
    else match a.pc
      case Staging => if a.looking.None? && a.todo != {} then Some(a.todo) else None
      case Locking => Some(a.deps - a.held)
      case _ => None
  }

  /** An event that moves a run forward rather than abandoning it. */
  predicate Advances(s: State, e: Event) {
    && !e.StageFails? && !e.LockFails? && !e.UninstallLockFails? && !e.RecoverBackup? && !e.CollectBackup?
    && !e.StartInstall? && !e.StartUninstall?
    && Enabled(s, e)
  }

  /** A run that is not waiting for a lock can always take its next step. */
  lemma UnblockedAdvances(s: State, i: RunId)
    requires Inv(s) && OrderInv(s) && i in s.runs && !s.runs[i].Finished() && Wanted(s.runs[i]).None?
    ensures exists e :: Advances(s, e) && OwnedBy(e, i)
  {
    var a := s.runs[i];
    assert InOrder(a) && RunOk(s.slots, HalfReported(s, a.lang), i, a);
    var e := NextStep(i, a);
    if a.Uninstall? {
      UninstallAdvances(s, i);
    } else if a.pc.Publishing? {
      PublishingAdvances(s, i);
    } else {
      InstallAdvances(s, i);
    }
    assert Advances(s, e) && OwnedBy(e, i);
  }

  lemma UninstallAdvances(s: State, i: RunId)
    requires i in s.runs && s.runs[i].Uninstall? && !s.runs[i].Finished() && Wanted(s.runs[i]).None?
    ensures Advances(s, NextStep(i, s.runs[i])) && OwnedBy(NextStep(i, s.runs[i]), i)
  {
  }

  lemma InstallAdvances(s: State, i: RunId)
    requires i in s.runs && s.runs[i].Install? && !s.runs[i].Finished() && !s.runs[i].pc.Publishing?
    requires Wanted(s.runs[i]).None? && InOrder(s.runs[i]) && InstallShape(i, s.runs[i])
    ensures Advances(s, NextStep(i, s.runs[i])) && OwnedBy(NextStep(i, s.runs[i]), i)
  {
  }

  lemma PublishingAdvances(s: State, i: RunId)
    requires AtInstall(s, i, Publishing) && InOrder(s.runs[i]) && InstallShape(i, s.runs[i])
    ensures Advances(s, NextStep(i, s.runs[i])) && OwnedBy(NextStep(i, s.runs[i]), i)
  {
    var a := s.runs[i];
    var left := a.entries.Keys - a.settled;
    if left - {a.lang} == {} {
      NoDifference(a.entries.Keys, a.settled);
      var l :| l in left;
      assert l !in left - {a.lang};
      assert left == {a.lang};
    }
  }

  ghost function AnyOf(ls: set<Lang>): Lang
    requires ls != {}
  {
    var l :| l in ls; l
  }

  ghost function NextStep(i: RunId, a: Run): Event
    requires !a.Finished() && Wanted(a).None? && InOrder(a) && (a.Install? ==> InstallShape(i, a))
  {
    if a.Uninstall? then
      (match a.upc
       case Probing => Probe(i, true)
       case RemovingQueries => RemoveTheQueries(i, RemovalWorks)
       case _ => RemoveTheParser(i, false))
    else match a.pc
      case Staging =>
        if a.looking.Some? then StageLook(i, Some(Copy(i, true, {}, {})), {}) else StageParser(i, Compiled)
      case Locking => LockFails(i)
      case CheckingTombstones => CheckTombstones(i)
      case CheckingDependencies => CheckDependencies(i)
      case Yielding => YieldParser(i)
      case Publishing =>
        var left := a.entries.Keys - a.settled;
        if left - {a.lang} != {} then PublishEntry(i, AnyOf(left - {a.lang}), PublishWorks)
        else PublishEntry(i, a.lang, PublishWorks)
      case PublishingParser => PublishTheParser(i, ParserWorks)
      case RollingBack =>
        if a.published != {} then RollBackEntry(i, AnyOf(a.published), UndoWorks, false) else FinishRollback(i)
      case Committing =>
        if a.published != {} then CommitEntry(i, AnyOf(a.published), false) else FinishCommit(i)
  }

  lemma NoDifference<T>(a: set<T>, b: set<T>)
    ensures a - b == {} ==> a <= b
  {
    forall x | x in a && a - b == {}
      ensures x in b
    {
      assert x !in a - b;
    }
  }

  ghost predicate Unfinished(s: State, i: RunId) {
    i in s.runs && !s.runs[i].Finished()
  }

  ghost predicate Waits(s: State, i: RunId) {
    Unfinished(s, i) && Wanted(s.runs[i]).Some?
  }

  ghost function Least(ls: set<Lang>): (l: Lang)
    requires ls != {}
    ensures l in ls && forall m :: m in ls ==> l <= m
  {
    var l := AnyOf(ls);
    if ls == {l} then l
    else
      var rest := Least(ls - {l});
      assert ls == (ls - {l}) + {l};
      if rest < l then rest else l
  }

  /** The lock a waiting run asks for next. */
  ghost function Next(a: Run): Lang {
    if Wanted(a).Some? && Wanted(a).value != {} then Least(Wanted(a).value) else 0
  }

  lemma WantsSomething(s: State, i: RunId)
    requires Inv(s) && OrderInv(s) && Waits(s, i)
    ensures Wanted(s.runs[i]).value != {}
    ensures Next(s.runs[i]) in Wanted(s.runs[i]).value
  {
    var a := s.runs[i];
    assert InOrder(a);
    if a.Install? && a.pc.Locking? {
      NoDifference(a.deps, a.held);
    }
  }

  /** A run waiting for a free lock can take it. */
  lemma FreeLockAdvances(s: State, i: RunId)
    requires Inv(s) && OrderInv(s) && Waits(s, i)
    requires Wanted(s.runs[i]).value != {} && Free(s, Next(s.runs[i]))
    ensures exists e :: Advances(s, e) && OwnedBy(e, i)
  {
    var a := s.runs[i];
    var l := Next(a);
    var e := if a.Uninstall? then TakeUninstallLock(i) else if a.pc.Staging? then StageClear(i, l) else TakeLock(i, l);
    assert Advances(s, e) && OwnedBy(e, i);
  }

  /** Whoever holds a lock is either able to move, or waits for a larger language. */
  lemma HolderWantsMore(s: State, i: RunId, l: Lang)
    requires Inv(s) && OrderInv(s) && i in s.runs && l in s.runs[i].Held()
    ensures Unfinished(s, i)
    ensures Waits(s, i) ==> Wanted(s.runs[i]).value != {} && l < Next(s.runs[i])
  {
    assert RunOk(s.slots, HalfReported(s, s.runs[i].lang), i, s.runs[i]) && InOrder(s.runs[i]);
    if Waits(s, i) {
      WantsSomething(s, i);
    }
  }

  /** The languages above `l` that some run is waiting for. */
  ghost function Above(s: State, l: Lang): set<Lang> {
    set j | j in s.runs && Waits(s, j) && l < Next(s.runs[j]) :: Next(s.runs[j])
  }

  /** Following holders from a waiting run reaches one that can move, because
      the languages waited for only grow. */
  lemma {:induction false} WaitingAdvances(s: State, i: RunId)
    requires Inv(s) && OrderInv(s) && Waits(s, i)
    ensures exists e :: Advances(s, e) && Unfinished(s, e.run)
    decreases |Above(s, Next(s.runs[i]))|
  {
    WantsSomething(s, i);
    var l := Next(s.runs[i]);
    if Free(s, l) {
      FreeLockAdvances(s, i);
    } else {
      var k :| k in s.runs && l in s.runs[k].Held();
      HolderWantsMore(s, k, l);
      if Waits(s, k) {
        var m := Next(s.runs[k]);
        assert m in Above(s, l) && m !in Above(s, m);
        SmallerSet(Above(s, m), Above(s, l));
        WaitingAdvances(s, k);
      } else {
        UnblockedAdvances(s, k);
      }
    }
  }

  lemma SmallerSet<T>(a: set<T>, b: set<T>)
    requires a < b
    ensures |a| < |b|
  {
    assert b == a + (b - a);
    NoDifference(b, a);
  }

  /** No interleaving ever deadlocks: while some run is unfinished, some
      unfinished run can take a step that is not giving up. */
  lemma NeverDeadlocks(states: seq<State>, events: seq<Event>, k: nat, i: RunId)
    requires IsRun(states, events) && Starts(states[0]) && k < |states| && Unfinished(states[k], i)
    ensures exists e :: Advances(states[k], e) && Unfinished(states[k], e.run)
  {
    ReachableOrder(states, events, k);
    if Waits(states[k], i) {
      WaitingAdvances(states[k], i);
    } else {
      UnblockedAdvances(states[k], i);
    }
  }
}
