/** The Drive-to-Sheets script: for every file in the Drive folder, find
    the tab named after the file (creating it when missing), compute the
    next free row and write the file's name, creation time and link there.

    Every Google API call is an oracle in `FileEnv`; a file's processing is
    a pure function from the file and those answers to its effects and a
    report, and the loop over the files is a method. */
module SheetTabs {
  import opened Wrappers
  import opened Text
  import opened Normalize
  import opened Search
  import opened Effects
  import opened SheetRange

  // ---------------------------------------------------------------------------
  // Tab names
  // ---------------------------------------------------------------------------

  /** Exception names: lower-cased generated name to exact tab title. */
  const SHEET_NAME_MAP: map<string, string> := map["maya" := "MAYA NASRALLAH"]

  /** `fileName.split('.').slice(0, -1).join('.')`: the name without its
      last dot-separated segment; inner dots are kept, and a name without
      a dot gives the empty string. */
  function TabBaseName(fileName: string): (base: string)
    ensures '.' in fileName ==> base == fileName[..LastIndexOf(fileName, '.')]
    ensures '.' !in fileName ==> base == ""
  {
    var parts := Split(fileName, '.');
    SplitDropLastJoin(fileName, '.');
    Join(parts[..|parts| - 1], '.')
  }

  /** The tab title the script looks for: the mapped title when the
      lower-cased base name is an own key of the map, the base otherwise. */
  function GeneratedTabName(base: string): (title: string)
    ensures ToLower(base) in SHEET_NAME_MAP ==> title == SHEET_NAME_MAP[ToLower(base)]
    ensures ToLower(base) !in SHEET_NAME_MAP ==> title == base
  {
    var key := ToLower(base);
    if key in SHEET_NAME_MAP && SHEET_NAME_MAP[key] != "" then SHEET_NAME_MAP[key] else base
  }

  /** A JavaScript value in a place where a tab title is expected: a
      string, or another value that template literals print as `display`. */
  datatype JsValue = JsString(s: string) | NotAString(display: string)

  predicate Truthy(v: JsValue) {
    v.NotAString? || v.s != ""
  }

  function Display(v: JsValue): string {
    match v
    case JsString(s) => s
    case NotAString(display) => display
  }

  /** How `String(Object)` and `String(Object.prototype)` print. */
  const OBJECT_FUNCTION_TEXT := "function Object() { [native code] }"
  const OBJECT_PROTOTYPE_TEXT := "[object Object]"

  /** `SHEET_NAME_MAP[key]` on the plain object literal of the script:
      besides its own key, a lookup finds the members every object
      inherits from `Object.prototype`. The only such members whose names
      are entirely lower case, and so can equal a lower-cased key, are
      `constructor` (the `Object` function) and `__proto__` (the prototype
      object). */
  function MapLookupAsWritten(key: string): (v: Option<JsValue>)
    ensures key in SHEET_NAME_MAP ==> v == Some(JsString(SHEET_NAME_MAP[key]))
    ensures v.Some? && v.value.NotAString? <==> key == "constructor" || key == "__proto__"
    ensures v.None? <==> key !in SHEET_NAME_MAP && key != "constructor" && key != "__proto__"
  {
    if key in SHEET_NAME_MAP then Some(JsString(SHEET_NAME_MAP[key]))
    else if key == "constructor" then Some(NotAString(OBJECT_FUNCTION_TEXT))
    else if key == "__proto__" then Some(NotAString(OBJECT_PROTOTYPE_TEXT))
    else None
  }

  /** `nomeMapeado ? nomeMapeado : nomeAbaBase` as the script computes it. */
  function GeneratedTabNameAsWritten(base: string): JsValue {
    match MapLookupAsWritten(ToLower(base))
    case Some(v) => if Truthy(v) then v else JsString(base)
    case None => JsString(base)
  }

  /** Apart from the two inherited keys, the script's lookup gives the
      intended title. */
  lemma AsWrittenAgreesOffPrototypeKeys(base: string)
    requires ToLower(base) != "constructor" && ToLower(base) != "__proto__"
    ensures GeneratedTabNameAsWritten(base) == JsString(GeneratedTabName(base))
  {
  }

  /** The two inherited keys give a title that is not a string at all. */
  lemma PrototypeKeysGiveNonString(base: string)
    requires ToLower(base) == "constructor" || ToLower(base) == "__proto__"
    ensures GeneratedTabNameAsWritten(base).NotAString?
    ensures GeneratedTabName(base) == base
  {
  }

  // ---------------------------------------------------------------------------
  // obterOuCriarAba
  // ---------------------------------------------------------------------------

  /** A resolved tab: its exact title and whether it existed before. */
  datatype Tab = Tab(name: string, existed: bool)

  /** Case-insensitive exact equality of titles; no diacritic folding and
      no substring match. */
  predicate TabMatches(tabTitle: string, title: string) {
    ToLower(tabTitle) == ToLower(title)
  }

  predicate IsFirstTabMatch(tabs: seq<string>, title: string, i: int) {
    0 <= i < |tabs| && TabMatches(tabs[i], title)
    && forall j :: 0 <= j < i ==> !TabMatches(tabs[j], title)
  }

  /** The TypeError thrown when the title has no `toLowerCase` method. */
  const NOT_A_FUNCTION := "sheetTitleGerado.toLowerCase is not a function"

  function ResolveErrorLog(title: string, message: string): string {
    "❌ Erro crítico ao verificar/criar a aba \"" + title + "\": " + message
  }

  /** `obterOuCriarAba(sheets, spreadsheetId, title)`: list the tab titles;
      return the first whose lower-cased title equals the lower-cased
      `title`, or create a tab titled `title` exactly. Any failure is
      logged and rethrown. */
  function ResolveTab(listing: Result<seq<string>>, title: JsValue, create: Result<()>): (st: Step<Tab>)
    ensures |st.effects| >= 1 && st.effects[0] == ListTabs
    ensures forall i :: 0 <= i < |st.effects| ==> !st.effects[i].WriteRange? && !st.effects[i].ReadRange?
    ensures st.result.Err? <==>
              listing.Err? || title.NotAString?
              || ((forall i :: 0 <= i < |listing.value| ==> !TabMatches(listing.value[i], title.s)) && create.Err?)
    ensures st.result.Err? ==>
              st.effects[|st.effects| - 1] == Log(Error, ResolveErrorLog(Display(title), st.result.message))
    ensures listing.Ok? && title.NotAString? ==> st.result == Err(NOT_A_FUNCTION)
    ensures st.result.Ok? && st.result.value.existed ==>
              st.effects == [ListTabs]
              && exists i :: IsFirstTabMatch(listing.value, title.s, i) && st.result.value.name == listing.value[i]
    ensures st.result.Ok? && !st.result.value.existed ==>
              st.effects == [ListTabs, CreateTab(title.s)] && st.result.value.name == title.s
              && forall i :: 0 <= i < |listing.value| ==> !TabMatches(listing.value[i], title.s)
  {
    match listing
    case Err(m) => Step([ListTabs, Log(Error, ResolveErrorLog(Display(title), m))], Err(m))
    case Ok(tabs) =>
      match title
      case NotAString(display) =>
        Step([ListTabs, Log(Error, ResolveErrorLog(display, NOT_A_FUNCTION))], Err(NOT_A_FUNCTION))
      case JsString(t) =>
        var k := FirstIndex(tabs, (x: string) => TabMatches(x, t));
        if k < |tabs| then
          assert IsFirstTabMatch(tabs, t, k);
          Step([ListTabs], Ok(Tab(tabs[k], true)))
        else
          match create
          case Err(m) => Step([ListTabs, CreateTab(t), Log(Error, ResolveErrorLog(t, m))], Err(m))
          case Ok(_) => Step([ListTabs, CreateTab(t)], Ok(Tab(t, false)))
  }

  /** A tab created for a title is found, under its exact title, by the
      next lookup of any title that lower-cases the same way. */
  lemma CreatedTabIsFoundNext(tabs: seq<string>, title: string, other: string, more: seq<string>, create: Result<()>)
    requires ResolveTab(Ok(tabs), JsString(title), Ok(())).result == Ok(Tab(title, false))
    requires ToLower(other) == ToLower(title)
    ensures ResolveTab(Ok(tabs + [title] + more), JsString(other), create).result == Ok(Tab(title, true))
  {
    var p := (x: string) => TabMatches(x, other);
    assert forall i :: 0 <= i < |tabs| ==> !p(tabs[i]);
    FirstIndexAppend(tabs, [title] + more, p);
    assert p(([title] + more)[0]);
    assert FirstIndex([title] + more, p) == 0;
    assert tabs + [title] + more == tabs + ([title] + more);
    assert (tabs + [title] + more)[|tabs|] == title;
  }

  // ---------------------------------------------------------------------------
  // One file
  // ---------------------------------------------------------------------------

  /** The answers of the Sheets API for one file: the tab listing, the
      tab creation, the read of column A (the number of values, `None`
      when the response has no `values`) and the row write. */
  datatype FileEnv = FileEnv(
    listing: Result<seq<string>>,
    create: Result<()>,
    column: Result<Option<nat>>,
    write: Result<()>)

  datatype FileReport = Inserted(tab: string, row: nat) | Skipped(message: string)

  datatype FileRun = FileRun(effects: seq<Effect>, report: FileReport)

  function SkipLog(fileName: string, message: string): string {
    "❌ Falha ao processar o arquivo \"" + fileName + "\". Pulando. Detalhes: " + message
  }

  function InsertedLog(tab: string, row: nat, fileName: string): string {
    "✅ Inserido na aba \"" + tab + "\" (Linha " + NatToString(row) + "): " + fileName
  }

  /** Write the file's row at `row` of `tab`, after the effects `before`. */
  function WriteRow(file: DriveFile, tab: string, row: nat, write: Result<()>, before: seq<Effect>): (run: FileRun)
    ensures |run.effects| == |before| + 2 && run.effects[..|before|] == before
    ensures Writes(run.effects) == Writes(before) + [(RowRange(tab, row), RecordRow(file))]
    ensures run.report.Inserted? <==> write.Ok?
    ensures run.report.Inserted? ==> run.report == Inserted(tab, row)
    ensures run.report.Skipped? ==>
              run.report.message == write.message
              && run.effects[|run.effects| - 1] == Log(Error, SkipLog(file.name, write.message))
    ensures run.effects[|before|] == WriteRange(RowRange(tab, row), RecordRow(file))
    ensures write.Ok? ==> run.effects[|run.effects| - 1] == Log(Info, InsertedLog(tab, row, file.name))
  {
    var effects := before + [WriteRange(RowRange(tab, row), RecordRow(file))];
    var after := match write
      case Err(m) => Log(Error, SkipLog(file.name, m))
      case Ok(_) => Log(Info, InsertedLog(tab, row, file.name));
    WritesAppend(before, [WriteRange(RowRange(tab, row), RecordRow(file))]);
    WritesAppend(effects, [after]);
    match write
    case Err(m) => FileRun(effects + [after], Skipped(m))
    case Ok(_) => FileRun(effects + [after], Inserted(tab, row))
  }

  /** The body of the loop for one file whose generated title is `title`:
      resolve the tab, find the next row (1 for a new tab), write the row;
      any failure skips the file with one error log. */
  function ProcessFileWith(file: DriveFile, title: JsValue, env: FileEnv): (run: FileRun)
    ensures |run.effects| >= 2 && run.effects[0] == ListTabs
    ensures var resolved := ResolveTab(env.listing, title, env.create).result;
            (run.report.Inserted? <==>
               resolved.Ok? && (resolved.value.existed ==> env.column.Ok?) && env.write.Ok?)
            && (run.report.Inserted? ==>
                  run.report.tab == resolved.value.name
                  && run.report.row == (if resolved.value.existed then NextRow(env.column.value) else 1))
    ensures run.report.Inserted? ==> Writes(run.effects) == [(RowRange(run.report.tab, run.report.row), RecordRow(file))]
    ensures |Writes(run.effects)| <= 1
    ensures run.report.Skipped? ==>
              run.effects[|run.effects| - 1] == Log(Error, SkipLog(file.name, run.report.message))
  {
    var resolved := ResolveTab(env.listing, title, env.create);
    NoWritesWithoutWriteRange(resolved.effects);
    match resolved.result
    case Err(m) => FileRun(resolved.effects + [Log(Error, SkipLog(file.name, m))], Skipped(m))
    case Ok(tab) =>
      if tab.existed then
        var read := resolved.effects + [ReadRange(FirstColumnRange(tab.name))];
        NoWritesWithoutWriteRange(read);
        match env.column
        case Err(m) => FileRun(read + [Log(Error, SkipLog(file.name, m))], Skipped(m))
        case Ok(count) => WriteRow(file, tab.name, NextRow(count), env.write, read)
      else WriteRow(file, tab.name, 1, env.write, resolved.effects)
  }

  /** After resolving the tab, the script reads column A of the tab it
      resolved (`<tab>!A:A`) when that tab already existed, and goes
      straight to writing row 1 of a tab it has just created. */
  lemma ReadsColumnOfResolvedTab(file: DriveFile, title: JsValue, env: FileEnv)
    ensures var resolved := ResolveTab(env.listing, title, env.create);
            var run := ProcessFileWith(file, title, env);
            resolved.result.Ok? ==>
              |run.effects| > |resolved.effects| && run.effects[..|resolved.effects|] == resolved.effects
              && run.effects[|resolved.effects|] ==
                   if resolved.result.value.existed then ReadRange(FirstColumnRange(resolved.result.value.name))
                   else WriteRange(RowRange(resolved.result.value.name, 1), RecordRow(file))
  {
    var resolved := ResolveTab(env.listing, title, env.create);
    if resolved.result.Ok? && resolved.result.value.existed {
      var read := resolved.effects + [ReadRange(FirstColumnRange(resolved.result.value.name))];
      assert read[..|resolved.effects|] == resolved.effects;
    }
  }

  lemma {:induction false} NoWritesWithoutWriteRange(effects: seq<Effect>)
    requires forall i :: 0 <= i < |effects| ==> !effects[i].WriteRange?
    ensures Writes(effects) == []
    ensures forall e: Effect :: !e.WriteRange? ==> Writes(effects + [e]) == []
  {
    if |effects| > 0 {
      NoWritesWithoutWriteRange(effects[1..]);
    }
    forall e: Effect | !e.WriteRange?
      ensures Writes(effects + [e]) == []
    {
      WritesAppend(effects, [e]);
    }
  }

  /** The loop body as the script runs it. */
  function ProcessFileAsWritten(file: DriveFile, env: FileEnv): FileRun {
    ProcessFileWith(file, GeneratedTabNameAsWritten(TabBaseName(file.name)), env)
  }

  /** As written, the loop body does what the intended one does for every
      base name that does not lower-case to an inherited key. */
  lemma AsWrittenAgreesElsewhere(file: DriveFile, env: FileEnv)
    requires ToLower(TabBaseName(file.name)) != "constructor" && ToLower(TabBaseName(file.name)) != "__proto__"
    ensures ProcessFileAsWritten(file, env) == ProcessFile(file, env)
  {
    AsWrittenAgreesOffPrototypeKeys(TabBaseName(file.name));
  }

  /** As written, a base name lower-casing to an inherited key skips its
      file without any write, whatever the Sheets API would answer. */
  lemma AsWrittenSkipsPrototypeKeys(file: DriveFile, env: FileEnv)
    requires ToLower(TabBaseName(file.name)) == "constructor" || ToLower(TabBaseName(file.name)) == "__proto__"
    requires env.listing.Ok?
    ensures ProcessFileAsWritten(file, env).report == Skipped(NOT_A_FUNCTION)
    ensures Writes(ProcessFileAsWritten(file, env).effects) == []
  {
    var title := GeneratedTabNameAsWritten(TabBaseName(file.name));
    PrototypeKeysGiveNonString(TabBaseName(file.name));
    assert title == NotAString(title.display);
    NonStringTitleIsSkipped(file, title.display, env);
    NoWritesWithoutWriteRange(ProcessFileAsWritten(file, env).effects);
  }

  /** The loop body with the map lookup restricted to the map's own keys. */
  function ProcessFile(file: DriveFile, env: FileEnv): FileRun {
    ProcessFileWith(file, JsString(GeneratedTabName(TabBaseName(file.name))), env)
  }

  /** Two files with the same base name: once the first has created its
      tab and written row 1, the second finds that tab and, reading one
      value in column A, writes row 2 of it. */
  lemma SecondFileGoesBelowFirst(first: DriveFile, second: DriveFile, env1: FileEnv, env2: FileEnv, title: string, more: seq<string>)
    requires title == GeneratedTabName(TabBaseName(first.name))
    requires TabBaseName(second.name) == TabBaseName(first.name)
    requires env1.listing.Ok? && ResolveTab(env1.listing, JsString(title), env1.create).result == Ok(Tab(title, false))
    requires env2.listing == Ok(env1.listing.value + [title] + more)
    requires env2.column == Ok(Some(1)) && env2.write.Ok?
    ensures ProcessFile(first, env1).report == (if env1.write.Ok? then Inserted(title, 1) else Skipped(env1.write.message))
    ensures ProcessFile(second, env2).report == Inserted(title, 2)
  {
    assert env1.create.Ok?;
    CreatedTabIsFoundNext(env1.listing.value, title, title, more, env2.create);
  }

  // ---------------------------------------------------------------------------
  // The special case of the name map
  //
  // As in FoldExamples, each lemma takes its literal as a parameter pinned
  // by `requires`, so that the lower-casing is unfolded on it only here.
  // ---------------------------------------------------------------------------

  lemma ConstructorBaseName(fileName: string)
    requires fileName == "constructor.jpg"
    ensures TabBaseName(fileName) == "constructor"
  {
    LastIndexOfBefore("constructor", '.', "jpg");
    assert fileName == "constructor" + ['.'] + "jpg";
  }

  lemma LowerOfConstructor(key: string)
    requires key == "constructor"
    ensures ToLower(key) == key
  {
    ConstructorIsLowerAscii(key);
    ToLowerOfLower(key);
  }

  lemma ConstructorIsLowerAscii(key: string)
    requires key == "constructor"
    ensures forall k :: 0 <= k < |key| ==> 'a' <= key[k] <= 'z'
  {
  }

  /** A title that is not a string never gets a tab: after listing the
      tabs, the missing `toLowerCase` is logged and the file is skipped. */
  lemma NonStringTitleIsSkipped(file: DriveFile, display: string, env: FileEnv)
    requires env.listing.Ok?
    ensures ProcessFileWith(file, NotAString(display), env)
              == FileRun([ListTabs, Log(Error, ResolveErrorLog(display, NOT_A_FUNCTION)),
                          Log(Error, SkipLog(file.name, NOT_A_FUNCTION))],
                         Skipped(NOT_A_FUNCTION))
  {
    var resolved := ResolveTab(env.listing, NotAString(display), env.create);
    assert resolved.effects == [ListTabs, Log(Error, ResolveErrorLog(display, NOT_A_FUNCTION))];
  }

  lemma ConstructorTitleAsWritten(fileName: string)
    requires fileName == "constructor.jpg"
    ensures GeneratedTabNameAsWritten(TabBaseName(fileName)) == NotAString(OBJECT_FUNCTION_TEXT)
  {
    ConstructorBaseName(fileName);
    LowerOfConstructor("constructor");
  }

  /** As written, a file named `constructor.jpg` is skipped even when
      every Sheets call would succeed: the map lookup yields the inherited
      `Object` function, whose `toLowerCase` does not exist. */
  lemma ConstructorFileIsSkippedAsWritten(file: DriveFile, env: FileEnv)
    requires file.name == "constructor.jpg"
    requires env.listing.Ok?
    ensures ProcessFileAsWritten(file, env).report == Skipped(NOT_A_FUNCTION)
    ensures ProcessFileAsWritten(file, env).effects
              == [ListTabs, Log(Error, ResolveErrorLog(OBJECT_FUNCTION_TEXT, NOT_A_FUNCTION)),
                  Log(Error, SkipLog(file.name, NOT_A_FUNCTION))]
  {
    ConstructorTitleAsWritten(file.name);
    NonStringTitleIsSkipped(file, OBJECT_FUNCTION_TEXT, env);
  }

  /** A title no existing tab matches gets a new tab, and the file is
      written on its first row. */
  lemma NewTabGetsFirstRow(file: DriveFile, title: string, env: FileEnv)
    requires env.listing.Ok? && env.create.Ok? && env.write.Ok?
    requires forall i :: 0 <= i < |env.listing.value| ==> !TabMatches(env.listing.value[i], title)
    ensures ProcessFileWith(file, JsString(title), env).report == Inserted(title, 1)
    ensures Writes(ProcessFileWith(file, JsString(title), env).effects) == [(RowRange(title, 1), RecordRow(file))]
  {
  }

  /** With the lookup restricted to own keys, the same file gets a tab
      named `constructor` and its row is written. */
  lemma ConstructorFileIsInserted(file: DriveFile, env: FileEnv)
    requires file.name == "constructor.jpg"
    requires env.listing == Ok([]) && env.create.Ok? && env.write.Ok?
    ensures ProcessFile(file, env).report == Inserted("constructor", 1)
    ensures Writes(ProcessFile(file, env).effects) == [(RowRange("constructor", 1), RecordRow(file))]
  {
    ConstructorBaseName(file.name);
    LowerOfConstructor("constructor");
    assert GeneratedTabName("constructor") == "constructor";
    NewTabGetsFirstRow(file, "constructor", env);
  }

  // ---------------------------------------------------------------------------
  // inserirArquivosDoDriveNoSheets
  // ---------------------------------------------------------------------------

  const NO_FILES := "Nenhum arquivo encontrado."
  const START_LOG := "--- Iniciando inserção de arquivos no Sheets ---"
  const DONE_LOG := "--- Processo de inserção concluído! ---"

  function GeneralErrorLog(message: string): string {
    "❌ Ocorreu um erro GERAL: " + message
  }

  function FoundLog(count: nat): string {
    "✅ Encontrados " + NatToString(count) + " arquivos."
  }

  /** Which map lookup the loop body uses: the plain-object lookup the
      script performs, or the one restricted to the map's own keys. */
  datatype Lookup = AsWritten | OwnKeys

  function ProcessFileBy(lookup: Lookup, file: DriveFile, env: FileEnv): FileRun {
    match lookup
    case AsWritten => ProcessFileAsWritten(file, env)
    case OwnKeys => ProcessFile(file, env)
  }

  /** The effects of several file runs, one after the other. */
  function FileRunEffects(runs: seq<FileRun>): seq<Effect> {
    if |runs| == 0 then [] else FileRunEffects(runs[..|runs| - 1]) + runs[|runs| - 1].effects
  }

  lemma FileRunEffectsExtend(runs: seq<FileRun>, next: FileRun)
    ensures FileRunEffects(runs + [next]) == FileRunEffects(runs) + next.effects
  {
    assert (runs + [next])[..|runs|] == runs;
  }

  lemma EffectsSoFarExtend(header: seq<Effect>, effects: seq<Effect>, runs: seq<FileRun>, run: FileRun)
    requires effects == header + FileRunEffects(runs)
    ensures effects + run.effects == header + FileRunEffects(runs + [run])
  {
    FileRunEffectsExtend(runs, run);
  }

  /** `runs[k]` is what file `k` does when processed on its own. */
  predicate AreFileRunsOf(lookup: Lookup, runs: seq<FileRun>, files: seq<(DriveFile, FileEnv)>) {
    |runs| <= |files|
    && forall k {:trigger files[k]} :: 0 <= k < |runs| ==> runs[k] == ProcessFileBy(lookup, files[k].0, files[k].1)
  }

  lemma FileRunsExtend(lookup: Lookup, files: seq<(DriveFile, FileEnv)>, runs: seq<FileRun>, next: FileRun)
    requires |runs| < |files| && AreFileRunsOf(lookup, runs, files)
    requires next == ProcessFileBy(lookup, files[|runs|].0, files[|runs|].1)
    ensures AreFileRunsOf(lookup, runs + [next], files)
  {
    var extended := runs + [next];
    forall k {:trigger files[k]} | 0 <= k < |extended|
      ensures extended[k] == ProcessFileBy(lookup, files[k].0, files[k].1)
    {
      if k < |runs| {
        assert extended[k] == runs[k];
      }
    }
  }

  /** What the loop knows after running `runs`: they are the files' own
      runs, their effects follow the header, and each inserted row has
      been written. */
  predicate RunsSoFar(lookup: Lookup, files: seq<(DriveFile, FileEnv)>, header: seq<Effect>,
                      effects: seq<Effect>, runs: seq<FileRun>) {
    AreFileRunsOf(lookup, runs, files)
    && effects == header + FileRunEffects(runs)
    && |Writes(effects)| <= |runs|
    && forall k :: 0 <= k < |runs| && runs[k].report.Inserted? ==>
         (RowRange(runs[k].report.tab, runs[k].report.row), RecordRow(files[k].0)) in Writes(effects)
  }

  lemma RunsSoFarExtend(lookup: Lookup, files: seq<(DriveFile, FileEnv)>, header: seq<Effect>,
                        effects: seq<Effect>, runs: seq<FileRun>, run: FileRun)
    requires |runs| < |files| && RunsSoFar(lookup, files, header, effects, runs)
    requires run == ProcessFileBy(lookup, files[|runs|].0, files[|runs|].1)
    ensures RunsSoFar(lookup, files, header, effects + run.effects, runs + [run])
  {
    var extended := runs + [run];
    assert AreFileRunsOf(lookup, extended, files) by {
      FileRunsExtend(lookup, files, runs, run);
    }
    assert effects + run.effects == header + FileRunEffects(extended) by {
      EffectsSoFarExtend(header, effects, runs, run);
    }
    assert |Writes(effects + run.effects)| <= |extended|
           && forall k :: 0 <= k < |extended| && extended[k].report.Inserted? ==>
                (RowRange(extended[k].report.tab, extended[k].report.row), RecordRow(files[k].0)) in Writes(effects + run.effects)
    by {
      RunWritesItsRow(lookup, files[|runs|].0, files[|runs|].1);
      InsertedRowsExtend(files, runs, effects, run);
    }
  }

  /** A run writes at most one row: the inserted file's, at its tab and row. */
  lemma RunWritesItsRow(lookup: Lookup, file: DriveFile, env: FileEnv)
    ensures var run := ProcessFileBy(lookup, file, env);
            (run.report.Inserted? ==> Writes(run.effects) == [(RowRange(run.report.tab, run.report.row), RecordRow(file))])
            && |Writes(run.effects)| <= 1
  {
  }

  lemma InsertedRowsExtend(files: seq<(DriveFile, FileEnv)>, runs: seq<FileRun>, effects: seq<Effect>, run: FileRun)
    requires |runs| < |files|
    requires run.report.Inserted? ==> Writes(run.effects) == [(RowRange(run.report.tab, run.report.row), RecordRow(files[|runs|].0))]
    requires |Writes(run.effects)| <= 1 && |Writes(effects)| <= |runs|
    requires forall k :: 0 <= k < |runs| && runs[k].report.Inserted? ==>
               (RowRange(runs[k].report.tab, runs[k].report.row), RecordRow(files[k].0)) in Writes(effects)
    ensures |Writes(effects + run.effects)| <= |runs| + 1
    ensures forall k :: 0 <= k < |runs| + 1 && (runs + [run])[k].report.Inserted? ==>
              (RowRange((runs + [run])[k].report.tab, (runs + [run])[k].report.row), RecordRow(files[k].0))
                in Writes(effects + run.effects)
  {
    WritesAppend(effects, run.effects);
  }

  /** The closing log writes nothing, so every inserted row stays written. */
  lemma RunsSoFarClosed(lookup: Lookup, files: seq<(DriveFile, FileEnv)>, header: seq<Effect>,
                        effects: seq<Effect>, runs: seq<FileRun>, last: Effect)
    requires RunsSoFar(lookup, files, header, effects, runs) && last.Log?
    ensures |Writes(effects + [last])| <= |runs|
    ensures forall k :: 0 <= k < |runs| && runs[k].report.Inserted? ==>
              (RowRange(runs[k].report.tab, runs[k].report.row), RecordRow(files[k].0)) in Writes(effects + [last])
  {
    WritesAppend(effects, [last]);
    assert Writes([last]) == [];
  }

  /** The whole run over the listed files, each with the answers the
      Sheets API gives while it is processed, and with either map lookup.
      A failed listing is logged once; an empty one ends the run;
      otherwise the count and the start are logged, every file is
      processed in order on its own, a file that fails being skipped
      without stopping the others, and the end is logged. */
  method InsertAll(listing: Result<seq<(DriveFile, FileEnv)>>, lookup: Lookup) returns (effects: seq<Effect>, runs: seq<FileRun>)
    ensures listing.Err? ==> effects == [Log(Error, GeneralErrorLog(listing.message))] && runs == []
    ensures listing.Ok? && |listing.value| == 0 ==> effects == [Log(Info, NO_FILES)] && runs == []
    ensures listing.Ok? ==> |runs| == |listing.value| && AreFileRunsOf(lookup, runs, listing.value)
    ensures listing.Ok? && |listing.value| > 0 ==>
              effects == [Log(Info, FoundLog(|listing.value|)), Log(Info, START_LOG)] + FileRunEffects(runs) + [Log(Info, DONE_LOG)]
    ensures listing.Ok? ==>
              |Writes(effects)| <= |listing.value|
              && forall k :: 0 <= k < |runs| && runs[k].report.Inserted? ==>
                   (RowRange(runs[k].report.tab, runs[k].report.row), RecordRow(listing.value[k].0)) in Writes(effects)
  {
    match listing
    case Err(m) =>
      effects, runs := [Log(Error, GeneralErrorLog(m))], [];
    case Ok(files) =>
      if |files| == 0 {
        effects, runs := [Log(Info, NO_FILES)], [];
        return;
      }
      var header := [Log(Info, FoundLog(|files|)), Log(Info, START_LOG)];
      NoWritesWithoutWriteRange(header);
      effects, runs := header, [];
      for i := 0 to |files|
        invariant |runs| == i
        invariant RunsSoFar(lookup, files, header, effects, runs)
      {
        var run := ProcessFileBy(lookup, files[i].0, files[i].1);
        RunsSoFarExtend(lookup, files, header, effects, runs, run);
        effects, runs := effects + run.effects, runs + [run];
      }
      RunsSoFarClosed(lookup, files, header, effects, runs, Log(Info, DONE_LOG));
      effects := effects + [Log(Info, DONE_LOG)];
  }
}
