/**
 One language's place in the data directory, and the atomic steps that installs
 and uninstalls take on it.

 A slot holds the live query copy `queries/<lang>`, the parser entry
 `parser/<lang>.<ext>`, the uninstall tombstone, and the query copies that
 publishes moved aside. Every function below is one critical section of the
 source: it runs under the language's replace lock (or is a single rename), so
 nothing can interleave inside it. Its fault argument says which of its I/O
 calls fails.
 */
module LanguageSlot {
  import opened Wrappers

  type Lang = nat
  type RunId = nat

  /** A query directory: which run wrote it, whether it is complete, and the
      languages its modelines inherit (`optional` ones are needed only when the
      language is loaded for itself). */
  datatype Copy = Copy(writer: RunId, complete: bool, required: set<Lang>, optional: set<Lang>) {
    function Parents(requested: bool): set<Lang> {
      if requested then required + optional else required
    }
  }

  /** What sits at the parser path. A directory there is never a parser, and no
      command removes it. */
  datatype Parser = NoParser | ParserFile(writer: RunId) | ParserDirectory

  datatype Slot = Slot(queries: Option<Copy>, parser: Parser, tombstone: bool, backups: map<RunId, Copy>) {
    predicate Complete() {
      queries.Some? && queries.value.complete
    }

    /** The state both commands must never leave behind is a parser without queries. */
    predicate Paired() {
      parser.ParserFile? ==> queries.Some?
    }

    /** The slot with the queries a run displaced put back. */
    function Restored(run: RunId): Slot {
      this.(queries := if run in backups then Some(backups[run]) else None)
    }
  }

  const EMPTY_SLOT := Slot(None, NoParser, false, map[])

  type Disk = map<Lang, Slot>

  function At(disk: Disk, lang: Lang): Slot {
    if lang in disk then disk[lang] else EMPTY_SLOT
  }

  /** The copy of `d` an install goes by: the one waiting to be published, or the live one. */
  function PreparedCopy(slots: Disk, waiting: map<Lang, Copy>, d: Lang): Option<Copy> {
    if d in waiting then Some(waiting[d]) else At(slots, d).queries
  }

  /** A complete copy that inherits only languages of `deps`. */
  predicate IsCovered(copy: Option<Copy>, requested: bool, deps: set<Lang>) {
    copy.Some? && copy.value.complete && copy.value.Parents(requested) <= deps
  }

  // ---------------------------------------------------------------- publishing queries

  /** `Untouched`: the replace lock, the ownership marker or the move aside fails.
      `RenameFails`: the staged copy cannot be renamed into place.
      `RestoreFails`: nor can the displaced copy be moved back. */
  datatype PublishFault = PublishWorks | Untouched | RenameFails | RestoreFails

  datatype PublishOutcome = Published | AlreadyComplete | Uninstalled | PublishFailed(stranded: bool)

  function PublishQueries(slot: Slot, staged: Copy, force: bool, run: RunId, fault: PublishFault)
    : (r: (Slot, PublishOutcome))
  {
    if fault.Untouched? then
      (slot, PublishFailed(false))
    else if !force && slot.Complete() then
      (slot, AlreadyComplete)
    else if slot.tombstone then
      (slot, Uninstalled)
    else if slot.queries.None? then
      if fault.PublishWorks? then (slot.(queries := Some(staged)), Published)
      else (slot, PublishFailed(false))
    else match fault
      case PublishWorks =>
        (slot.(queries := Some(staged), backups := slot.backups[run := slot.queries.value]), Published)
      case RestoreFails =>
        (slot.(queries := None, backups := slot.backups[run := slot.queries.value]), PublishFailed(true))
      case _ =>
        (slot, PublishFailed(false))
  }

  // ---------------------------------------------------------------- undoing a publish

  datatype RollbackOutcome = Undone | NewQueriesRemain | PreviousQueriesStranded

  /** What a failed install reports about queries it could not put back. */
  datatype RollbackResidue = NewQueriesLive | QueriesStranded

  function ResidueOf(outcome: RollbackOutcome): Option<RollbackResidue> {
    match outcome
    case Undone => None
    case NewQueriesRemain => Some(NewQueriesLive)
    case PreviousQueriesStranded => Some(QueriesStranded)
  }

  /** `RemoveFails(partly)`: the new directory survives, perhaps without its highlights. */
  datatype UndoFault = UndoWorks | UndoLockFails | RemoveFails(partly: bool) | PutBackFails

  function PartlyRemoved(queries: Option<Copy>, partly: bool): Option<Copy> {
    if queries.Some? && partly then Some(queries.value.(complete := false)) else queries
  }

  function UndoPublish(slot: Slot, run: RunId, fault: UndoFault): (r: (Slot, RollbackOutcome)) {
    match fault
    case UndoLockFails =>
      (slot, NewQueriesRemain)
    case RemoveFails(partly) =>
      (slot.(queries := PartlyRemoved(slot.queries, partly)), NewQueriesRemain)
    case _ =>
      if run !in slot.backups then
        (slot.(queries := None), Undone)
      else if slot.tombstone then
        (slot.(queries := None, backups := slot.backups - {run}), Undone)
      else if fault.PutBackFails? then
        (slot.(queries := None), PreviousQueriesStranded)
      else
        (slot.(queries := Some(slot.backups[run]), backups := slot.backups - {run}), Undone)
  }

  /** Dropping a displaced copy, which may fail with a warning only. */
  function DiscardBackup(slot: Slot, run: RunId, fails: bool): (r: Slot) {
    if fails then slot else slot.(backups := slot.backups - {run})
  }

  // ---------------------------------------------------------------- publishing the parser

  /** `DisplacedLost`: on Windows the previous parser is moved aside first, and
      then neither the new one nor the old one can be renamed into place. */
  datatype ParserFault = ParserWorks | ParserRenameFails | DisplacedLost

  function PublishParser(slot: Slot, run: RunId, windows: bool, fault: ParserFault): (r: (Slot, bool)) {
    if slot.parser.ParserDirectory? then
      (slot, false)
    else match fault
      case ParserWorks => (slot.(parser := ParserFile(run)), true)
      case ParserRenameFails => (slot, false)
      case DisplacedLost =>
        if windows && slot.parser.ParserFile? then (slot.(parser := NoParser), false) else (slot, false)
  }

  // ---------------------------------------------------------------- uninstalling

  /** `NothingRemoved(written)`: the lock or the tombstone fails, perhaps after the marker was created.
      `EntryRemains(partly)`: the tombstone is there, the query entry is not gone.
      `BackupsRemain(kept)`: the queries are gone, these backups are not. */
  datatype RemovalFault =
    | RemovalWorks | NothingRemoved(written: bool) | EntryRemains(partly: bool) | BackupsRemain(kept: set<RunId>)

  datatype QueryRemoval = QueryRemoval(ok: bool, removedQueries: bool, removedBackups: bool, queriesAbsent: bool) {
    predicate RemovedAnything() { removedQueries || removedBackups }
  }

  function RemoveQueries(slot: Slot, fault: RemovalFault): (r: (Slot, QueryRemoval)) {
    match fault
    case NothingRemoved(written) =>
      (slot.(tombstone := slot.tombstone || written), QueryRemoval(false, false, false, false))
    case EntryRemains(partly) =>
      (slot.(tombstone := true, queries := PartlyRemoved(slot.queries, partly)),
       QueryRemoval(false, false, false, false))
    case BackupsRemain(kept) =>
      var left := map run | run in slot.backups && run in kept :: slot.backups[run];
      (slot.(tombstone := true, queries := None, backups := left),
       QueryRemoval(false, slot.queries.Some?, left != slot.backups, true))
    case RemovalWorks =>
      (slot.(tombstone := true, queries := None, backups := map[]),
       QueryRemoval(true, slot.queries.Some?, slot.backups != map[], true))
  }

  /** Unlinking the parser entry that was probed; a directory is never taken. */
  function RemoveParser(slot: Slot, fails: bool): (r: Slot) {
    if slot.parser.ParserFile? && !fails then slot.(parser := NoParser) else slot
  }

  // ---------------------------------------------------------------- recovery

  /** A stranded complete backup may be moved back only while the language has
      no query entry and no tombstone. */
  predicate Recoverable(slot: Slot, run: RunId) {
    slot.queries.None? && !slot.tombstone && run in slot.backups && slot.backups[run].complete
  }

  function Recover(slot: Slot, run: RunId): Slot
    requires Recoverable(slot, run)
  {
    slot.(queries := Some(slot.backups[run]), backups := slot.backups - {run})
  }

  // ---------------------------------------------------------------- what the steps promise

  /** `after` is `before` with `copy` published over it. */
  predicate PublishedOver(before: Slot, after: Slot, copy: Copy, run: RunId) {
    && after.queries == Some(copy)
    && after.parser == before.parser && after.tombstone == before.tombstone
    && after.backups == if before.queries.Some? then before.backups[run := before.queries.value] else before.backups
  }

  /** What undoing a publish over `before` by `run` of a copy of `writer` leaves,
      for each outcome it may report. */
  predicate UndoneTo(before: Slot, after: Slot, writer: RunId, run: RunId, outcome: RollbackOutcome) {
    && after.parser == before.parser && after.tombstone == before.tombstone
    && match outcome
       case Undone => after == before
       case NewQueriesRemain => after.queries.Some? && after.queries.value.writer == writer
       case PreviousQueriesStranded =>
         && before.queries.Some? && after.queries.None?
         && run in after.backups && after.backups[run] == before.queries.value
  }

  /** Undoing a publish: back to the very slot it found, or exactly what the outcome admits. */
  lemma PublishedThenUndone(before: Slot, after: Slot, copy: Copy, run: RunId, fault: UndoFault)
    requires run !in before.backups && PublishedOver(before, after, copy, run) && !before.tombstone
    ensures UndoneTo(before, UndoPublish(after, run, fault).0, copy.writer, run, UndoPublish(after, run, fault).1)
  {
    if before.queries.Some? {
      assert after.backups - {run} == before.backups;
    }
  }

  /** The publish and its undo in a row, whatever fails on the way. */
  lemma PublishThenUndoIsIdentity(slot: Slot, staged: Copy, force: bool, run: RunId, fault: PublishFault,
                                  undo: UndoFault)
    requires run !in slot.backups
    requires PublishQueries(slot, staged, force, run, fault).1.Published?
    ensures var published := PublishQueries(slot, staged, force, run, fault).0;
            var (after, outcome) := UndoPublish(published, run, undo);
            PublishedOver(slot, published, staged, run) && UndoneTo(slot, after, staged.writer, run, outcome)
  {
    PublishedThenUndone(slot, PublishQueries(slot, staged, force, run, fault).0, staged, run, undo);
  }

  /** A publish that does not report `Published` leaves the slot alone, except
      that a stranding one moves the live copy into its backup. */
  lemma UnpublishedLeavesSlot(slot: Slot, staged: Copy, force: bool, run: RunId, fault: PublishFault)
    ensures var (after, outcome) := PublishQueries(slot, staged, force, run, fault);
            !outcome.Published? ==>
              if outcome == PublishFailed(true) then
                && slot.queries.Some? && after.queries.None?
                && after == slot.(queries := None, backups := slot.backups[run := slot.queries.value])
              else after == slot
    ensures var (after, outcome) := PublishQueries(slot, staged, force, run, fault);
            outcome.AlreadyComplete? ==> !force && slot.Complete()
    ensures PublishQueries(slot, staged, force, run, fault).1.Published? ==>
              !slot.tombstone && (force || !slot.Complete())
  {
  }
}
