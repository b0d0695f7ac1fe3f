/**
 The uninstall command: for each language, probe the parser, remove the queries
 and their backups, and only then the parser.
 */
module Uninstaller {
  import opened LanguageSlot
  import Installer
  import opened Wrappers

  /** The outcome of every I/O call made for one language. */
  datatype Outcomes = Outcomes(
    nameIsSafe: bool, locks: bool, parserReadable: bool, queriesReadable: bool,
    removal: RemovalFault, parserStays: bool)

  datatype Removal = Removal(slot: Slot, removed: bool, failed: bool, leftDirectory: bool)

  /** What the command does to one language. */
  function Uninstalled(slot: Slot, o: Outcomes): Removal {
    if !o.nameIsSafe || !o.locks || !o.parserReadable then
      Removal(slot, false, true, false)
    else if slot.parser.ParserDirectory? && (!o.queriesReadable || slot.queries.Some?) then
      Removal(slot, false, true, true)
    else
      var (after, removal) := RemoveQueries(slot, o.removal);
      if !removal.queriesAbsent then
        Removal(after, removal.RemovedAnything(), true, slot.parser.ParserDirectory?)
      else
        Removal(RemoveParser(after, o.parserStays),
                removal.RemovedAnything() || (slot.parser.ParserFile? && !o.parserStays),
                !removal.ok || (slot.parser.ParserFile? && o.parserStays),
                slot.parser.ParserDirectory?)
  }

  predicate Holds(slot: Slot) {
    slot.queries.Some? || slot.parser.ParserFile? || slot.backups != map[]
  }

  /** A clean uninstall leaves nothing it manages, and the tombstone that stops a waiting install. */
  lemma SuccessMeansGone(slot: Slot, o: Outcomes)
    ensures var r := Uninstalled(slot, o);
            !r.failed ==> !Holds(r.slot) && r.slot.tombstone && (r.removed <==> Holds(slot))
  {
  }

  /** The command makes a parser-only language exactly when everything up to the
      parser goes through and unlinking the parser fails, which it reports. */
  lemma NeverHalfRemoves(slot: Slot, o: Outcomes)
    requires slot.Paired()
    ensures var r := Uninstalled(slot, o);
            && (!r.slot.Paired() <==>
                  && o.nameIsSafe && o.locks && o.parserReadable
                  && (o.removal.RemovalWorks? || o.removal.BackupsRemain?)
                  && slot.parser.ParserFile? && o.parserStays)
            && (!r.slot.Paired() ==> r.failed && r.removed && r.slot.tombstone)
  {
  }

  datatype Report = Report(anyRemoved: bool, anyFailed: bool, leftInPlace: seq<Lang>, notInstalled: seq<Lang>) {
    /** With one more language gone through. */
    function Adding(lang: Lang, removed: bool, failed: bool, left: bool, absent: bool): Report {
      Report(anyRemoved || removed, anyFailed || failed,
             if left then leftInPlace + [lang] else leftInPlace,
             if absent then notInstalled + [lang] else notInstalled)
    }
  }

  function OutcomesOf(script: map<Lang, Outcomes>, l: Lang): Outcomes {
    if l in script then script[l] else Outcomes(true, true, true, true, RemovalWorks, false)
  }

  /** The disk once the languages in `done` have been uninstalled. */
  ghost predicate UninstalledOver(found: Disk, now: Disk, done: seq<Lang>, script: map<Lang, Outcomes>) {
    forall l :: At(now, l) == if l in done then Uninstalled(At(found, l), OutcomesOf(script, l)).slot else At(found, l)
  }

  lemma UninstalledOneMore(found: Disk, now: Disk, after: Disk, done: seq<Lang>, script: map<Lang, Outcomes>,
                           lang: Lang)
    requires UninstalledOver(found, now, done, script) && lang !in done
    requires At(after, lang) == Uninstalled(At(found, lang), OutcomesOf(script, lang)).slot
    requires forall l :: l != lang ==> At(after, l) == At(now, l)
    ensures UninstalledOver(found, after, done + [lang], script)
  {
  }

  /** What has been reported once the languages in `done` have been uninstalled. */
  ghost predicate Reported(found: Disk, done: seq<Lang>, all: bool, script: map<Lang, Outcomes>, report: Report) {
    && (report.anyFailed <==> exists l :: l in done && Uninstalled(At(found, l), OutcomesOf(script, l)).failed)
    && (report.anyRemoved <==> exists l :: l in done && Uninstalled(At(found, l), OutcomesOf(script, l)).removed)
    && (forall l :: l in report.leftInPlace <==>
          !all && l in done && Uninstalled(At(found, l), OutcomesOf(script, l)).leftDirectory)
    && (forall l :: l in report.notInstalled <==>
          !all && l in done && !Uninstalled(At(found, l), OutcomesOf(script, l)).failed && !Holds(At(found, l)))
  }

  lemma ReportedOneMore(found: Disk, done: seq<Lang>, all: bool, script: map<Lang, Outcomes>, report: Report,
                        lang: Lang)
    requires Reported(found, done, all, script, report)
    ensures var r := Uninstalled(At(found, lang), OutcomesOf(script, lang));
            Reported(found, done + [lang], all, script,
                     report.Adding(lang, r.removed, r.failed, !all && r.leftDirectory, !all && !r.removed && !r.failed))
  {
    SuccessMeansGone(At(found, lang), OutcomesOf(script, lang));
  }

  lemma NextIsNew(langs: seq<Lang>, k: nat)
    requires Distinct(langs) && k < |langs|
    ensures langs[k] !in langs[..k] && langs[..k + 1] == langs[..k] + [langs[k]]
  {
  }

  lemma NoneFailedMeansGone(found: Disk, now: Disk, langs: seq<Lang>, all: bool, script: map<Lang, Outcomes>,
                            report: Report)
    requires UninstalledOver(found, now, langs, script) && Reported(found, langs, all, script, report)
    ensures !report.anyFailed ==> forall l :: l in langs ==> !Holds(At(now, l)) && At(now, l).tombstone
  {
    forall l
      ensures l in langs && !report.anyFailed ==> !Holds(At(now, l)) && At(now, l).tombstone
    {
      SuccessMeansGone(At(found, l), OutcomesOf(script, l));
    }
  }

  /** The per-language loop of the command, for one named language or for all that discovery found. */
  method UninstallLanguages(dir: Installer.DataDirectory, langs: seq<Lang>, all: bool, script: map<Lang, Outcomes>)
    returns (report: Report)
    requires Distinct(langs)
    modifies dir`slots
    ensures UninstalledOver(old(dir.slots), dir.slots, langs, script)
    ensures Reported(old(dir.slots), langs, all, script, report)
    ensures !report.anyFailed ==> forall l :: l in langs ==> !Holds(At(dir.slots, l)) && At(dir.slots, l).tombstone
  {
    report := Report(false, false, [], []);
    ghost var found := dir.slots;
    var k := 0;
    while k < |langs|
      invariant k <= |langs|
      invariant UninstalledOver(found, dir.slots, langs[..k], script)
      invariant Reported(found, langs[..k], all, script, report)
    {
      NextIsNew(langs, k);
      report := UninstallNext(dir, langs[k], all, script, report, found, langs[..k]);
      k := k + 1;
    }
    assert langs[..k] == langs;
    NoneFailedMeansGone(found, dir.slots, langs, all, script, report);
  }

  /** One turn of the loop, and what it adds to the report. */
  method UninstallNext(dir: Installer.DataDirectory, lang: Lang, all: bool, script: map<Lang, Outcomes>, report: Report,
                       ghost found: Disk, ghost done: seq<Lang>)
    returns (after: Report)
    requires UninstalledOver(found, dir.slots, done, script) && Reported(found, done, all, script, report)
    requires lang !in done
    modifies dir`slots
    ensures UninstalledOver(found, dir.slots, done + [lang], script)
    ensures Reported(found, done + [lang], all, script, after)
  {
    ReportedOneMore(found, done, all, script, report, lang);
    var removed, failed, left, absent := UninstallOne(dir, lang, all, OutcomesOf(script, lang));
    UninstalledOneMore(found, old(dir.slots), dir.slots, done, script, lang);
    after := report.Adding(lang, removed, failed, left, absent);
  }

  /** One language, exit by exit. */
  method UninstallOne(dir: Installer.DataDirectory, lang: Lang, all: bool, o: Outcomes)
    returns (removedSomething: bool, failed: bool, left: bool, absent: bool)
    modifies dir`slots
    ensures var r := Uninstalled(At(old(dir.slots), lang), o);
            && At(dir.slots, lang) == r.slot && removedSomething == r.removed && failed == r.failed
            && left == (!all && r.leftDirectory)
            && absent == (!all && !r.removed && !r.failed)
    ensures forall l :: l != lang ==> At(dir.slots, l) == At(old(dir.slots), l)
  {
    removedSomething, failed, left, absent := false, false, false, false;
    if !o.nameIsSafe {
      return false, true, false, false;
    }
    if !o.locks {
      return false, true, false, false;
    }
    if !o.parserReadable {
      return false, true, false, false;
    }
    var slot := At(dir.slots, lang);
    var parserEntry := slot.parser.ParserFile?;
    if slot.parser.ParserDirectory? {
      left := !all;
      if !o.queriesReadable || slot.queries.Some? {
        return false, true, left, false;
      }
    }
    var (cleared, removal) := RemoveQueries(slot, o.removal);
    dir.slots := dir.slots[lang := cleared];
    removedSomething := removal.RemovedAnything();
    failed := !removal.ok;
    if !removal.ok && !removal.queriesAbsent {
      return;
    }
    if parserEntry {
      if o.parserStays {
        failed := true;
      } else {
        dir.slots := dir.slots[lang := RemoveParser(cleared, false)];
        removedSomething := true;
      }
    }
    absent := !removedSomething && !all && !failed;
  }
}
