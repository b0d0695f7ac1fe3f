/**
 Installs and uninstalls as a concurrent protocol.

 Any number of runs share one data directory. A state is the disk plus the
 program point of every run; an event is one atomic step of one run, with the
 outcome of its I/O. Crash-free interleavings are exactly the event sequences
 in which every event is enabled.
 */
module InstallProtocol {
  import opened LanguageSlot
  import opened Wrappers

  // ---------------------------------------------------------------- runs

  datatype InstallPc =
    | Staging | Locking
    | CheckingTombstones | CheckingDependencies | Yielding
    | Publishing | PublishingParser | RollingBack | Committing
    | InstallDone(success: bool)
  {
    predicate BeforePublishing() {
      Staging? || Locking? || CheckingTombstones? || CheckingDependencies? || Yielding?
    }
    /** Between taking the last lock and dropping the transaction. */
    predicate InTransaction() {
      !(Staging? || Locking? || InstallDone?)
    }
    /** The dependency check has passed and no failure has been met since. */
    predicate ChainChecked() {
      Yielding? || Publishing? || PublishingParser?
    }
    /** Published queries may still be rolled back. */
    predicate Undoable() {
      Publishing? || PublishingParser? || RollingBack?
    }
  }

  datatype UninstallPc = Waiting | Probing | RemovingQueries | RemovingParser | UninstallDone

  datatype Run =
    | Install(lang: Lang, force: bool, pc: InstallPc,
              looking: Option<Lang>, todo: set<Lang>,
              deps: set<Lang>, entries: map<Lang, Copy>, parserStaged: bool,
              held: set<Lang>, settled: set<Lang>, published: set<Lang>,
              residue: Option<RollbackResidue>, parserLost: bool)
    | Uninstall(lang: Lang, upc: UninstallPc, entry: bool, queriesFailed: bool, parserFailed: bool)
  {
    function Held(): set<Lang> {
      if Install? then held
      else if upc.Probing? || upc.RemovingQueries? || upc.RemovingParser? then {lang} else {}
    }

    predicate Finished() {
      if Install? then pc.InstallDone? else upc.UninstallDone?
    }

    predicate TakingParserOf(l: Lang) {
      Uninstall? && lang == l && upc.RemovingParser?
    }

    /** A staged copy is forced for the requested language when the whole install
        is, or when it was claimed because this run also publishes the parser. */
    predicate Forces(l: Lang)
      requires Install?
    {
      l == lang && (force || parserStaged)
    }

    /** The copy the dependency recheck reads for `d`. */
    function Prepared(slots: Disk, d: Lang): Option<Copy>
      requires Install?
    {
      PreparedCopy(slots, entries - settled, d)
    }

    predicate Covered(slots: Disk, d: Lang)
      requires Install?
    {
      IsCovered(Prepared(slots, d), d == lang, deps)
    }

    function Abandoned(): Run
      requires Install?
    {
      this.(pc := InstallDone(false), held := {})
    }
  }

  datatype State = State(slots: Disk, runs: map<RunId, Run>, windows: bool)

  // ---------------------------------------------------------------- events

  datatype ParserStaging = CompileFails | Compiled | FoundInstalled

  datatype Event =
    | StartInstall(run: RunId, lang: Lang, force: bool)
    | StageClear(run: RunId, lang: Lang)
    | StageLook(run: RunId, staged: Option<Copy>, inherited: set<Lang>)
    | StageFails(run: RunId)
    | StageParser(run: RunId, outcome: ParserStaging)
    | TakeLock(run: RunId, lang: Lang)
    | LockFails(run: RunId)
    | CheckTombstones(run: RunId)
    | CheckDependencies(run: RunId)
    | YieldParser(run: RunId)
    | PublishEntry(run: RunId, lang: Lang, publishFault: PublishFault)
    | PublishTheParser(run: RunId, parserFault: ParserFault)
    | RollBackEntry(run: RunId, lang: Lang, undoFault: UndoFault, discardFails: bool)
    | FinishRollback(run: RunId)
    | CommitEntry(run: RunId, lang: Lang, discardFails: bool)
    | FinishCommit(run: RunId)
    | StartUninstall(run: RunId, lang: Lang)
    | TakeUninstallLock(run: RunId)
    | UninstallLockFails(run: RunId)
    | Probe(run: RunId, readable: bool)
    | RemoveTheQueries(run: RunId, removalFault: RemovalFault)
    | RemoveTheParser(run: RunId, removalFails: bool)
    | RecoverBackup(lang: Lang, backup: RunId)
    | CollectBackup(lang: Lang, backup: RunId)

  predicate Free(s: State, lang: Lang) {
    forall i | i in s.runs :: lang !in s.runs[i].Held()
  }

  predicate AtInstall(s: State, i: RunId, pc: InstallPc) {
    i in s.runs && s.runs[i].Install? && s.runs[i].pc == pc
  }

  predicate AtUninstall(s: State, i: RunId, upc: UninstallPc) {
    i in s.runs && s.runs[i].Uninstall? && s.runs[i].upc == upc
  }

  predicate FreshId(s: State, i: RunId) {
    i !in s.runs && forall l | l in s.slots :: i !in s.slots[l].backups
  }

  predicate Enabled(s: State, e: Event) {
    match e
    case StartInstall(i, _, _) => FreshId(s, i)
    case StartUninstall(i, _) => FreshId(s, i)
    // Staging visits each language once. The tombstone is cleared first, under
    // the language's lock, which is dropped again at once.
    case StageClear(i, l) =>
      AtInstall(s, i, Staging) && s.runs[i].looking.None? && l in s.runs[i].todo && Free(s, l)
    // A complete copy is kept unless the requested language is forced; any
    // other is downloaded. What either inherits is still to be visited.
    case StageLook(i, staged, inherited) =>
      && AtInstall(s, i, Staging) && s.runs[i].looking.Some?
      && (var l := s.runs[i].looking.value;
          match staged
          case None => At(s.slots, l).Complete() && !(s.runs[i].force && l == s.runs[i].lang)
          case Some(copy) => copy.writer == i && copy.complete && inherited == copy.Parents(l == s.runs[i].lang))
    case StageFails(i) => AtInstall(s, i, Staging)
    case StageParser(i, outcome) =>
      && i in s.runs && s.runs[i].Install? && s.runs[i].pc.Staging?
      && s.runs[i].looking.None? && s.runs[i].todo == {}
      && (outcome.FoundInstalled? ==> !s.runs[i].force && At(s.slots, s.runs[i].lang).parser.ParserFile?)
    // Locks are taken in sorted order, so overlapping installs queue.
    case TakeLock(i, l) =>
      && AtInstall(s, i, Locking) && l in s.runs[i].deps - s.runs[i].held
      && (forall d | d in s.runs[i].deps - s.runs[i].held :: l <= d)
      && Free(s, l)
    case LockFails(i) => AtInstall(s, i, Locking)
    case CheckTombstones(i) => AtInstall(s, i, CheckingTombstones)
    case CheckDependencies(i) => AtInstall(s, i, CheckingDependencies)
    case YieldParser(i) => AtInstall(s, i, Yielding)
    // Entries are in dependency order, so the requested language comes last.
    case PublishEntry(i, l, _) =>
      && AtInstall(s, i, Publishing) && l in s.runs[i].entries.Keys - s.runs[i].settled
      && (l == s.runs[i].lang ==> s.runs[i].entries.Keys - s.runs[i].settled == {l})
    case PublishTheParser(i, _) => AtInstall(s, i, PublishingParser)
    case RollBackEntry(i, l, _, _) => AtInstall(s, i, RollingBack) && l in s.runs[i].published
    case FinishRollback(i) => AtInstall(s, i, RollingBack) && s.runs[i].published == {}
    case CommitEntry(i, l, _) => AtInstall(s, i, Committing) && l in s.runs[i].published
    case FinishCommit(i) => AtInstall(s, i, Committing) && s.runs[i].published == {}
    case TakeUninstallLock(i) => AtUninstall(s, i, Waiting) && Free(s, s.runs[i].lang)
    case UninstallLockFails(i) => AtUninstall(s, i, Waiting)
    case Probe(i, _) => AtUninstall(s, i, Probing)
    case RemoveTheQueries(i, _) => AtUninstall(s, i, RemovingQueries)
    case RemoveTheParser(i, _) => AtUninstall(s, i, RemovingParser)
    // Recovery and the sweep of superseded backups hold the replace lock only.
    case RecoverBackup(l, b) => Recoverable(At(s.slots, l), b)
    case CollectBackup(l, b) =>
      && At(s.slots, l).Complete() && b in At(s.slots, l).backups
      && (b in s.runs ==> s.runs[b].Finished())
  }

  function Write(s: State, lang: Lang, slot: Slot): State {
    s.(slots := s.slots[lang := slot])
  }

  function Move(s: State, i: RunId, run: Run): State {
    s.(runs := s.runs[i := run])
  }

  /** The point reached once the entries in `settled` have been dealt with. */
  function AfterEntries(run: Run, settled: set<Lang>): InstallPc
    requires run.Install?
  {
    if settled == run.entries.Keys then PublishingParser else Publishing
  }

  function AfterLocks(run: Run, held: set<Lang>): InstallPc
    requires run.Install?
  {
    if held == run.deps then CheckingTombstones else Locking
  }

  function Apply(s: State, e: Event): State
    requires Enabled(s, e)
  {
    match e
    case StartInstall(i, l, force) =>
      Move(s, i, Install(l, force, Staging, None, {l}, {}, map[], false, {}, {}, {}, None, false))
    case StartUninstall(i, l) =>
      Move(s, i, Uninstall(l, Waiting, false, false, false))
    case StageClear(i, l) =>
      var a := s.runs[i];
      Move(Write(s, l, At(s.slots, l).(tombstone := false)), i,
           a.(looking := Some(l), todo := a.todo - {l}, deps := a.deps + {l}))
    case StageLook(i, staged, inherited) =>
      var a := s.runs[i];
      var l := a.looking.value;
      Move(s, i, a.(looking := None, todo := a.todo + (inherited - a.deps),
                    entries := if staged.Some? then a.entries[l := staged.value] else a.entries))
    case StageFails(i) => Move(s, i, s.runs[i].Abandoned())
    case StageParser(i, outcome) =>
      var a := s.runs[i];
      if outcome.CompileFails? then Move(s, i, a.Abandoned())
      else Move(s, i, a.(pc := Locking, parserStaged := outcome.Compiled?))
    case TakeLock(i, l) =>
      var a := s.runs[i];
      Move(s, i, a.(held := a.held + {l}, pc := AfterLocks(a, a.held + {l})))
    case LockFails(i) => Move(s, i, s.runs[i].Abandoned())
    case CheckTombstones(i) =>
      var a := s.runs[i];
      if exists d | d in a.deps :: At(s.slots, d).tombstone then Move(s, i, a.Abandoned())
      else Move(s, i, a.(pc := CheckingDependencies))
    case CheckDependencies(i) =>
      var a := s.runs[i];
      if forall d | d in a.deps :: a.Covered(s.slots, d) then Move(s, i, a.(pc := Yielding))
      else Move(s, i, a.Abandoned())
    case YieldParser(i) =>
      var a := s.runs[i];
      var givesWay := !a.force && At(s.slots, a.lang).parser.ParserFile?;
      Move(s, i, a.(parserStaged := a.parserStaged && !givesWay, pc := AfterEntries(a, {})))
    case PublishEntry(i, l, fault) =>
      var a := s.runs[i];
      var (slot, outcome) := PublishQueries(At(s.slots, l), a.entries[l], a.Forces(l), i, fault);
      var settled := a.settled + {l};
      (match outcome
       case Published =>
         Move(Write(s, l, slot), i,
              a.(settled := settled, published := a.published + {l}, pc := AfterEntries(a, settled)))
       case AlreadyComplete =>
         if slot.queries.value.Parents(l == a.lang) <= a.deps
         then Move(s, i, a.(settled := settled, pc := AfterEntries(a, settled)))
         else Move(s, i, a.(settled := settled, pc := RollingBack))
       case Uninstalled =>
         Move(s, i, a.(settled := settled, pc := RollingBack))
       case PublishFailed(stranded) =>
         Move(Write(s, l, slot), i,
              a.(settled := settled, pc := RollingBack,
                 residue := if stranded then Some(QueriesStranded) else a.residue)))
    case PublishTheParser(i, fault) =>
      var a := s.runs[i];
      if a.parserStaged then
        var (slot, ok) := PublishParser(At(s.slots, a.lang), i, s.windows, fault);
        Move(Write(s, a.lang, slot), i,
             a.(pc := if ok then Committing else RollingBack, parserLost := !ok && slot != At(s.slots, a.lang)))
      else
        Move(s, i, a.(pc := if At(s.slots, a.lang).parser.ParserFile? then Committing else RollingBack))
    case RollBackEntry(i, l, fault, discardFails) =>
      var a := s.runs[i];
      if l == a.lang then
        var (slot, outcome) := UndoPublish(At(s.slots, l), i, fault);
        var residue := if ResidueOf(outcome).Some? then ResidueOf(outcome) else a.residue;
        Move(Write(s, l, slot), i, a.(published := a.published - {l}, residue := residue))
      else
        Move(Write(s, l, DiscardBackup(At(s.slots, l), i, discardFails)), i, a.(published := a.published - {l}))
    case FinishRollback(i) => Move(s, i, s.runs[i].Abandoned())
    case CommitEntry(i, l, discardFails) =>
      var a := s.runs[i];
      Move(Write(s, l, DiscardBackup(At(s.slots, l), i, discardFails)), i, a.(published := a.published - {l}))
    case FinishCommit(i) => Move(s, i, s.runs[i].(pc := InstallDone(true), held := {}))
    case TakeUninstallLock(i) => Move(s, i, s.runs[i].(upc := Probing))
    case UninstallLockFails(i) => Move(s, i, s.runs[i].(upc := UninstallDone))
    case Probe(i, readable) =>
      var a := s.runs[i];
      var slot := At(s.slots, a.lang);
      if !readable || (slot.parser.ParserDirectory? && slot.queries.Some?) then Move(s, i, a.(upc := UninstallDone))
      else Move(s, i, a.(upc := RemovingQueries, entry := slot.parser.ParserFile?))
    case RemoveTheQueries(i, fault) =>
      var a := s.runs[i];
      var (slot, removal) := RemoveQueries(At(s.slots, a.lang), fault);
      Move(Write(s, a.lang, slot), i,
           a.(upc := if removal.queriesAbsent then RemovingParser else UninstallDone, queriesFailed := !removal.ok))
    case RemoveTheParser(i, fails) =>
      var a := s.runs[i];
      if a.entry then
        Move(Write(s, a.lang, RemoveParser(At(s.slots, a.lang), fails)), i,
             a.(upc := UninstallDone, parserFailed := fails))
      else
        Move(s, i, a.(upc := UninstallDone))
    case RecoverBackup(l, b) => Write(s, l, Recover(At(s.slots, l), b))
    case CollectBackup(l, b) => Write(s, l, DiscardBackup(At(s.slots, l), b, false))
  }
}
