/** The earlier, local variant of the Drive-to-Sheets script: the tab is
    the part of the file name before its first dot and must already
    exist; the next row comes from reading columns A to C. A failed read
    skips the file, but a failed write ends the whole run. */
module LocalSheet {
  import opened Wrappers
  import opened Text
  import opened Effects
  import opened SheetRange
  import SheetTabs

  /** `nomeArquivo.split('.')[0]`: everything before the first dot, the
      whole name when it has none. */
  function LocalTabName(fileName: string): (tab: string)
    ensures tab == fileName[..FirstIndexOf(fileName, '.')]
    ensures '.' !in tab
    ensures '.' !in fileName ==> tab == fileName
  {
    SplitHead(fileName, '.');
    Split(fileName, '.')[0]
  }

  /** The Sheets API's answers for one file: the read of columns A to C
      (the number of rows, `None` when the response has no `values`) and
      the row write. */
  datatype LocalEnv = LocalEnv(read: Result<Option<nat>>, write: Result<()>)

  datatype LocalReport =
    | Inserted(tab: string, row: nat)
    | TabMissing(tab: string)                  // the read failed with an unparsable range
    | ReadFailed(tab: string, message: string) // the read failed otherwise
    | Aborted(message: string)                 // the write threw: the run ends

  datatype LocalRun = LocalRun(effects: seq<Effect>, report: LocalReport)

  /** The Sheets API's message for a range naming a missing tab. */
  const MISSING_TAB_MARKER := "Unable to parse range"

  function MissingTabLog(tab: string): string {
    "⚠️ Aba \"" + tab + "\" não encontrada. Pulando este arquivo."
  }

  function ReadErrorLog(tab: string, fileName: string, message: string): string {
    "❌ Erro ao tentar ler a aba \"" + tab + "\" (arquivo: " + fileName + "): " + message + ". Pulando este arquivo."
  }

  function InsertedLog(tab: string, file: DriveFile): string {
    "✅ Inserido na aba \"" + tab + "\": " + file.name + " - " + file.created + " - " + DriveLink(file.id)
  }

  /** The loop body for one file. */
  function LocalFile(file: DriveFile, env: LocalEnv): (run: LocalRun)
    ensures |run.effects| == 2 || |run.effects| == 3
    ensures run.effects[0] == ReadRange(RecordColumnsRange(LocalTabName(file.name)))
    ensures run.report.Inserted? <==> env.read.Ok? && env.write.Ok?
    ensures run.report.Aborted? <==> env.read.Ok? && env.write.Err?
    ensures run.report.TabMissing? <==> env.read.Err? && Includes(env.read.message, MISSING_TAB_MARKER)
    ensures run.report.Aborted? ==> run.report.message == env.write.message
    ensures env.read.Ok? ==>
              Writes(run.effects) == [(RowRange(LocalTabName(file.name), NextRow(env.read.value)), RecordRow(file))]
    ensures env.read.Ok? && env.write.Ok? ==>
              run.report == Inserted(LocalTabName(file.name), NextRow(env.read.value))
    ensures env.read.Err? ==> Writes(run.effects) == []
    ensures env.read.Err? ==>
              |run.effects| == 2
              && run.effects[1] == (if Includes(env.read.message, MISSING_TAB_MARKER)
                                    then Log(Warn, MissingTabLog(LocalTabName(file.name)))
                                    else Log(Error, ReadErrorLog(LocalTabName(file.name), file.name, env.read.message)))
    ensures run.report.ReadFailed? ==>
              run.report == ReadFailed(LocalTabName(file.name), env.read.message)
    ensures run.report.Inserted? ==> |run.effects| == 3 && run.effects[2] == Log(Info, InsertedLog(LocalTabName(file.name), file))
  {
    var tab := LocalTabName(file.name);
    var read := ReadRange(RecordColumnsRange(tab));
    match env.read
    case Err(m) =>
      if Includes(m, MISSING_TAB_MARKER) then LocalRun([read, Log(Warn, MissingTabLog(tab))], TabMissing(tab))
      else LocalRun([read, Log(Error, ReadErrorLog(tab, file.name, m))], ReadFailed(tab, m))
    case Ok(count) =>
      var row := NextRow(count);
      var write := WriteRange(RowRange(tab, row), RecordRow(file));
      var done := Log(Info, InsertedLog(tab, file));
      WritesAppend([read], [write]);
      WritesAppend([read, write], [done]);
      match env.write
      case Err(m) => LocalRun([read, write], Aborted(m))
      case Ok(_) => LocalRun([read, write, done], Inserted(tab, row))
  }

  const NO_FILES := "Nenhum arquivo encontrado na pasta do Google Drive especificada."
  const START_LOG := "--- Iniciando inserção de arquivos no Sheets ---"
  const DONE_LOG := "--- Processo de inserção concluído! ---"

  function GeneralErrorLog(message: string): string {
    "❌ Ocorreu um erro geral: " + message
  }

  function FoundLog(count: nat): string {
    "✅ Encontrados " + NatToString(count) + " arquivos no Google Drive."
  }

  /** The effects of several runs, one after the other. */
  function RunEffects(runs: seq<LocalRun>): seq<Effect> {
    if |runs| == 0 then [] else RunEffects(runs[..|runs| - 1]) + runs[|runs| - 1].effects
  }

  /** The rows several runs write, one after the other. */
  function RunWrites(runs: seq<LocalRun>): seq<(string, seq<string>)> {
    if |runs| == 0 then [] else RunWrites(runs[..|runs| - 1]) + Writes(runs[|runs| - 1].effects)
  }

  /** The rows written by consecutive runs are the rows each run writes. */
  lemma {:induction false} RunEffectsWrites(runs: seq<LocalRun>)
    ensures Writes(RunEffects(runs)) == RunWrites(runs)
  {
    if |runs| > 0 {
      RunEffectsWrites(runs[..|runs| - 1]);
      WritesAppend(RunEffects(runs[..|runs| - 1]), runs[|runs| - 1].effects);
    }
  }

  /** `runs[k]` is what file `k` does when processed on its own. */
  predicate AreRunsOf(runs: seq<LocalRun>, files: seq<(DriveFile, LocalEnv)>) {
    |runs| <= |files| && forall k {:trigger files[k]} :: 0 <= k < |runs| ==> runs[k] == LocalFile(files[k].0, files[k].1)
  }

  lemma RunsExtend(files: seq<(DriveFile, LocalEnv)>, runs: seq<LocalRun>, next: LocalRun)
    requires |runs| < |files| && AreRunsOf(runs, files)
    requires next == LocalFile(files[|runs|].0, files[|runs|].1)
    ensures AreRunsOf(runs + [next], files)
  {
    var extended := runs + [next];
    forall k {:trigger files[k]} | 0 <= k < |extended|
      ensures extended[k] == LocalFile(files[k].0, files[k].1)
    {
      if k < |runs| {
        assert extended[k] == runs[k];
      }
    }
  }

  lemma RunEffectsExtend(runs: seq<LocalRun>, next: LocalRun)
    ensures RunEffects(runs + [next]) == RunEffects(runs) + next.effects
  {
    assert (runs + [next])[..|runs|] == runs;
  }

  /** The loop over the files, in order: a file whose tab cannot be read
      is skipped, and the first failed write ends the loop with the
      general error log, leaving the later files untouched. `runs[k]` is
      what file `k` did. */
  method RecordFiles(files: seq<(DriveFile, LocalEnv)>)
    returns (effects: seq<Effect>, runs: seq<LocalRun>, aborted: Option<string>)
    ensures AreRunsOf(runs, files)
    ensures forall k :: 0 <= k < |runs| - 1 ==> !runs[k].report.Aborted?
    ensures aborted.None? <==> |runs| == |files| && forall k :: 0 <= k < |runs| ==> !runs[k].report.Aborted?
    ensures aborted.Some? ==> |runs| > 0 && runs[|runs| - 1].report == Aborted(aborted.value)
    ensures effects == RunEffects(runs) + (if aborted.Some? then [Log(Error, GeneralErrorLog(aborted.value))] else [])
  {
    effects, runs, aborted := [], [], None;
    var i := 0;
    while i < |files|
      invariant 0 <= i <= |files| && |runs| == i
      invariant AreRunsOf(runs, files)
      invariant forall k :: 0 <= k < i ==> !runs[k].report.Aborted?
      invariant effects == RunEffects(runs)
    {
      var run := LocalFile(files[i].0, files[i].1);
      RunsExtend(files, runs, run);
      RunEffectsExtend(runs, run);
      effects, runs := effects + run.effects, runs + [run];
      if run.report.Aborted? {
        aborted := Some(run.report.message);
        effects := effects + [Log(Error, GeneralErrorLog(run.report.message))];
        return;
      }
      i := i + 1;
    }
  }

  /** The whole run: the listing, then the loop over its files, and the
      closing log unless a write failed. */
  method InsertAllLocal(listing: Result<seq<(DriveFile, LocalEnv)>>)
    returns (effects: seq<Effect>, runs: seq<LocalRun>, aborted: Option<string>)
    ensures listing.Err? ==>
              effects == [Log(Error, GeneralErrorLog(listing.message))] && runs == [] && aborted == None
    ensures listing.Ok? && |listing.value| == 0 ==> effects == [Log(Info, NO_FILES)] && runs == [] && aborted == None
    ensures listing.Ok? ==>
              AreRunsOf(runs, listing.value)
              && (forall k :: 0 <= k < |runs| - 1 ==> !runs[k].report.Aborted?)
    ensures listing.Ok? ==>
              (aborted.None? <==> |runs| == |listing.value| && forall k :: 0 <= k < |runs| ==> !runs[k].report.Aborted?)
    ensures aborted.Some? ==> |runs| > 0 && runs[|runs| - 1].report == Aborted(aborted.value)
    ensures listing.Ok? && |listing.value| > 0 ==>
              effects == [Log(Info, FoundLog(|listing.value|)), Log(Info, START_LOG)]
                         + RunEffects(runs)
                         + [if aborted.Some? then Log(Error, GeneralErrorLog(aborted.value)) else Log(Info, DONE_LOG)]
    ensures Writes(effects) == RunWrites(runs)
  {
    aborted := None;
    match listing
    case Err(m) =>
      effects, runs := [Log(Error, GeneralErrorLog(m))], [];
    case Ok(files) =>
      if |files| == 0 {
        effects, runs := [Log(Info, NO_FILES)], [];
        return;
      }
      var recorded;
      recorded, runs, aborted := RecordFiles(files);
      var last := if aborted.Some? then Log(Error, GeneralErrorLog(aborted.value)) else Log(Info, DONE_LOG);
      var header := [Log(Info, FoundLog(|files|)), Log(Info, START_LOG)];
      effects := header + RunEffects(runs) + [last];
      LogsAroundRuns(header[0], header[1], runs, last);
  }

  /** Logs around the runs write nothing of their own. */
  lemma LogsAroundRuns(first: Effect, second: Effect, runs: seq<LocalRun>, last: Effect)
    requires first.Log? && second.Log? && last.Log?
    ensures Writes([first, second] + RunEffects(runs) + [last]) == RunWrites(runs)
  {
    RunEffectsWrites(runs);
    WritesAppend([first, second], RunEffects(runs));
    WritesAppend([first, second] + RunEffects(runs), [last]);
  }

  /** The run writes a file's row only when its tab could be read. */
  lemma WritesOnlyAfterRead(file: DriveFile, env: LocalEnv)
    ensures Writes(LocalFile(file, env).effects) != [] <==> env.read.Ok?
  {
  }

  /** With exactly one dot in the name, the local script and the deployed
      one pick the same tab base: the part before the dot. */
  lemma TabNamesAgreeWithOneDot(base: string, ext: string)
    requires '.' !in base && '.' !in ext
    ensures var name := base + "." + ext;
            LocalTabName(name) == base && SheetTabs.TabBaseName(name) == base
  {
    var name := base + "." + ext;
    assert name == base + ['.'] + ext;
    FirstIndexOfAfter(base, '.', ext);
    PrefixBeforeLast(base, '.', ext);
  }

  /** With two dots they part: the local script stops at the first dot,
      the deployed one keeps everything up to the last. */
  lemma TabNamesDifferWithTwoDots(first: string, middle: string, ext: string)
    requires '.' !in first && '.' !in middle && '.' !in ext
    ensures var name := first + "." + middle + "." + ext;
            LocalTabName(name) == first
            && SheetTabs.TabBaseName(name) == first + "." + middle
            && LocalTabName(name) != SheetTabs.TabBaseName(name)
  {
    var name := first + "." + middle + "." + ext;
    assert name == first + ['.'] + (middle + "." + ext);
    FirstIndexOfAfter(first, '.', middle + "." + ext);
    assert name == (first + "." + middle) + ['.'] + ext;
    PrefixBeforeLast(first + "." + middle, '.', ext);
    assert |first + "." + middle| > |first|;
  }
}
