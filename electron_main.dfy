/** The desktop handlers of the Electron main process: the settings merge,
    `preview-rename` (one plan per selected file), `perform-rename` (the
    rename loop with its same-name and target-exists skips and its four
    tallies) and `scan-directory`. Progress messages to the window are not
    modelled. */
module ElectronMain {
  import opened Results
  import opened Seqs
  import opened Text
  import opened NodePath
  import opened IsoDate
  import opened NodeFs
  import opened ImageAnalyzer
  import opened FileRenamer

  // -------------------------------------------------------- settings merge

  /** The four configuration keys the handlers override; `None` is
      `undefined`. */
  datatype Config = Config(apiKey: Option<string>, modelName: Option<string>, language: Option<string>, offlineMode: Option<bool>)

  /** A string value JavaScript treats as true: present and non-empty. */
  predicate Truthy(v: Option<string>)
  {
    v.Some? && v.value != ""
  }

  /** `a || b` on optional strings. */
  function Or(a: Option<string>, b: Option<string>): Option<string>
  {
    if Truthy(a) then a else b
  }

  /** `{...config, apiKey: settings.apiKey || config.apiKey, ...}`: each
      string setting wins when truthy, the language falls back to `zh`, and
      `offlineMode` wins whenever it is not `undefined`. */
  function MergeSettings(config: Config, settings: Config): (r: Config)
    ensures Truthy(settings.apiKey) ==> r.apiKey == settings.apiKey
    ensures !Truthy(settings.apiKey) ==> r.apiKey == config.apiKey
    ensures Truthy(settings.modelName) ==> r.modelName == settings.modelName
    ensures !Truthy(settings.modelName) ==> r.modelName == config.modelName
    ensures Truthy(r.language)
    ensures Truthy(settings.language) ==> r.language == settings.language
    ensures !Truthy(settings.language) && Truthy(config.language) ==> r.language == config.language
    ensures !Truthy(settings.language) && !Truthy(config.language) ==> r.language == Some("zh")
    ensures settings.offlineMode.Some? ==> r.offlineMode == settings.offlineMode
    ensures settings.offlineMode.None? ==> r.offlineMode == config.offlineMode
  {
    Config(
      Or(settings.apiKey, config.apiKey),
      Or(settings.modelName, config.modelName),
      Or(Or(settings.language, config.language), Some("zh")),
      if settings.offlineMode.Some? then settings.offlineMode else config.offlineMode)
  }

  /** Merging the same settings again changes nothing. */
  lemma MergeSettingsIdempotent(config: Config, settings: Config)
    ensures MergeSettings(MergeSettings(config, settings), settings) == MergeSettings(config, settings)
  {
  }

  /** An empty (`""`) setting does not override, but `offlineMode: false` does. */
  lemma EmptySettingDoesNotOverride(config: Config)
    requires Truthy(config.apiKey) && config.offlineMode == Some(true)
    ensures var r := MergeSettings(config, Config(Some(""), None, None, Some(false)));
      r.apiKey == config.apiKey && r.offlineMode == Some(false)
  {
  }

  // ---------------------------------------------------------- preview-rename

  /** One element of the `results` of `preview-rename`. A failed file has
      an `error`, no text, metadata or suggested name, and both flags false. */
  datatype PreviewEntry = PreviewEntry(
    originalPath: Path,
    originalName: string,
    extractedText: Option<string>,
    metadata: Option<Metadata>,
    suggestedName: Option<string>,
    error: Option<string>,
    wouldRename: bool,
    isSameName: bool)

  /** `error.message` of a rejected analysis. */
  function AnalysisMessage(e: AnalysisError): string
  {
    StatMessage(e.path)
  }

  /** The body of the loop of `preview-rename` for one selected file. */
  function PreviewEntryFor(t: Tree, filePath: Path, reply: Path -> Reply, now: Stamp): (e: PreviewEntry)
    ensures e.originalPath == filePath && e.originalName == BaseName(filePath)
    ensures e.error.None? <==> e.suggestedName.Some?
    ensures e.error.Some? ==> !e.wouldRename && !e.isSameName
    ensures e.error.None? ==> (e.isSameName <==> e.originalName == e.suggestedName.value) && e.wouldRename == !e.isSameName
  {
    var stat := Stat(t, filePath);
    match AnalyzeImage(filePath, stat, reply(filePath), now)
    case Ok(text) =>
      var newFileName := GenerateSuggestedName(text, now, Stat(t, "dummy")).value + ExtName(filePath);
      var isSameName := BaseName(filePath) == newFileName;
      PreviewEntry(filePath, BaseName(filePath), Some(text), ImageMetadata(filePath, stat), Some(newFileName), None, !isSameName, isSameName)
    case Err(e) =>
      PreviewEntry(filePath, BaseName(filePath), None, None, None, Some(AnalysisMessage(e)), false, false)
  }

  /** What a preview entry says: `isSameName` exactly when the basename
      equals the suggested name (the analysis result and the extension),
      `wouldRename` its negation; a file whose analysis rejects gets an
      error and neither flag. */
  lemma PreviewEntryFacts(t: Tree, filePath: Path, reply: Path -> Reply, now: Stamp)
    ensures var e := PreviewEntryFor(t, filePath, reply, now);
      && e.originalPath == filePath && e.originalName == BaseName(filePath)
      && (e.error.None? <==> filePath in t)
      && (e.error.Some? ==> !e.wouldRename && !e.isSameName && e.suggestedName.None?)
      && (e.error.None? ==>
        && e.suggestedName.Some?
        && e.suggestedName.value == AnalyzeImage(filePath, Stat(t, filePath), reply(filePath), now).value + ExtName(filePath)
        && (e.isSameName <==> e.originalName == e.suggestedName.value)
        && e.wouldRename == !e.isSameName)
  {
    var stat := Stat(t, filePath);
    var analysis := AnalyzeImage(filePath, stat, reply(filePath), now);
    if analysis.Ok? {
      AnalysisPassesThroughSuggestedName(filePath, stat, reply(filePath), now, now, Stat(t, "dummy"));
    }
  }

  /** The results for `files`, one per file, in order. */
  function PreviewEntries(t: Tree, files: seq<Path>, reply: Path -> Reply, now: Stamp): seq<PreviewEntry>
  {
    Map(filePath => PreviewEntryFor(t, filePath, reply, now), files)
  }

  /** A failing file does not stop the loop: there is one result per
      selected file, for that file, in order. */
  lemma PreviewOnePerFile(t: Tree, files: seq<Path>, reply: Path -> Reply, now: Stamp)
    ensures var r := PreviewEntries(t, files, reply, now);
      |r| == |files| && forall i :: 0 <= i < |r| ==> r[i].originalPath == files[i]
  {
    var r := PreviewEntries(t, files, reply, now);
    forall i | 0 <= i < |r|
      ensures r[i].originalPath == files[i]
    {
      MapAt(filePath => PreviewEntryFor(t, filePath, reply, now), files, i);
      PreviewEntryFacts(t, files[i], reply, now);
    }
  }

  /** The `preview-rename` handler: the configuration the new renamer is
      built with, and `results`. */
  method HandlePreviewRename(fs: FileSystem, config: Config, settings: Config, files: seq<Path>, reply: Path -> Reply, now: Stamp)
    returns (renamerConfig: Config, results: seq<PreviewEntry>)
    ensures renamerConfig == MergeSettings(config, settings)
    ensures results == PreviewEntries(fs.tree, files, reply, now)
  {
    renamerConfig := MergeSettings(config, settings);
    var t := fs.tree;
    results := [];
    var i := 0;
    while i < |files|
      invariant 0 <= i <= |files|
      invariant results == PreviewEntries(t, files[..i], reply, now)
    {
      MapSnoc(filePath => PreviewEntryFor(t, filePath, reply, now), files, i);
      results := results + [PreviewEntryFor(t, files[i], reply, now)];
      i := i + 1;
    }
    assert files[..i] == files;
  }

  // ---------------------------------------------------------- perform-rename

  datatype SkipReason = SameName | TargetExists

  /** One element of the `results` of `perform-rename`. */
  datatype FileResult =
    | Skipped(originalPath: Path, originalName: string, reason: SkipReason)
    | Done(originalPath: Path, newPath: Path, originalName: string, newName: string)
    | FailedFile(originalPath: Path, originalName: string, error: string)

  /** The four tallies of the loop and the filesystem it renames in. */
  datatype Tally = Tally(tree: Tree, results: seq<FileResult>, processed: nat, skipped: nat, success: nat, failed: nat)

  /** `summary` of the handler's reply. */
  datatype Summary = Summary(total: nat, processed: nat, skipped: nat, success: nat, failed: nat)

  /** `previewResults[i]`: missing past the end. */
  function PreviewAt(previewResults: seq<Option<PreviewEntry>>, i: nat): Option<PreviewEntry>
  {
    if i < |previewResults| then previewResults[i] else None
  }

  /** The name a file is renamed to: the preview's suggested name when it
      has a non-empty one, otherwise a fresh analysis with the date prefix
      and the file's extension. */
  function PlannedName(t: Tree, filePath: Path, preview: Option<PreviewEntry>, reply: Path -> Reply, now: Stamp): (r: Result<string, AnalysisError>)
    ensures r.Err? <==> !(preview.Some? && Truthy(preview.value.suggestedName)) && filePath !in t
    ensures r.Ok? ==> r.value != ""
  {
    if preview.Some? && Truthy(preview.value.suggestedName) then Ok(preview.value.suggestedName.value)
    else
      match AnalyzeImage(filePath, Stat(t, filePath), reply(filePath), now)
      case Err(e) => Err(e)
      case Ok(text) =>
        Ok(GenerateSuggestedName(text, now, Stat(t, "dummy")).value + ExtName(filePath))
  }

  /** One iteration of the loop of `perform-rename`: it counts its file
      once, as skipped, succeeded or failed, keeps `processed` equal to
      the successes and failures, and adds one result. */
  function RenameStep(st: Tally, filePath: Path, preview: Option<PreviewEntry>, reply: Path -> Reply, now: Stamp): (r: Tally)
    ensures r.skipped + r.success + r.failed == st.skipped + st.success + st.failed + 1
    ensures r.processed - r.success - r.failed == st.processed - st.success - st.failed
    ensures |r.results| == |st.results| + 1 && r.results[..|st.results|] == st.results
  {
    if preview.Some? && preview.value.isSameName then
      st.(skipped := st.skipped + 1, results := st.results + [Skipped(filePath, BaseName(filePath), SameName)])
    else
      ApplyPlan(st, filePath, PlannedName(st.tree, filePath, preview, reply, now))
  }

  /** The rest of an iteration once the name is planned: count a failed
      analysis, skip an existing target, or rename. */
  function ApplyPlan(st: Tally, filePath: Path, planned: Result<string, AnalysisError>): (r: Tally)
    ensures r.skipped + r.success + r.failed == st.skipped + st.success + st.failed + 1
    ensures r.processed - r.success - r.failed == st.processed - st.success - st.failed
    ensures |r.results| == |st.results| + 1 && r.results[..|st.results|] == st.results
    ensures r.tree != st.tree ==> planned.Ok? && Join(DirName(filePath), planned.value) !in st.tree
  {
    var name := BaseName(filePath);
    match planned
    case Err(e) =>
      st.(failed := st.failed + 1, processed := st.processed + 1,
          results := st.results + [FailedFile(filePath, name, AnalysisMessage(e))])
    case Ok(suggestedName) =>
      var newPath := Join(DirName(filePath), suggestedName);
      if newPath in st.tree then
        st.(skipped := st.skipped + 1, results := st.results + [Skipped(filePath, name, TargetExists)])
      else
        var tree := match RenameIn(st.tree, filePath, newPath) case Ok(t) => t case Err(_) => st.tree;
        Tally(tree, st.results + [Done(filePath, newPath, name, suggestedName)],
              st.processed + 1, st.skipped, st.success + 1, st.failed)
  }

  /** The loop of `perform-rename` over the first `|files|` files, from `st`. */
  function RenameLoop(st: Tally, files: seq<Path>, previewResults: seq<Option<PreviewEntry>>, reply: Path -> Reply, now: Stamp): Tally
  {
    if files == [] then st
    else
      var i := |files| - 1;
      RenameStep(RenameLoop(st, files[..i], previewResults, reply, now), files[i], PreviewAt(previewResults, i), reply, now)
  }

  function StartTally(t: Tree): Tally
  {
    Tally(t, [], 0, 0, 0, 0)
  }

  /** The `perform-rename` handler: the configuration the new renamer is
      built with, `results` and `summary`. */
  method HandlePerformRename(fs: FileSystem, config: Config, settings: Config, files: seq<Path>,
                             previewResults: seq<Option<PreviewEntry>>, reply: Path -> Reply, now: Stamp)
    returns (renamerConfig: Config, results: seq<FileResult>, summary: Summary)
    modifies fs
    ensures renamerConfig == MergeSettings(config, settings)
    ensures var end := RenameLoop(StartTally(old(fs.tree)), files, previewResults, reply, now);
      && fs.tree == end.tree && results == end.results
      && summary == Summary(|files|, end.processed, end.skipped, end.success, end.failed)
  {
    renamerConfig := MergeSettings(config, settings);
    results := [];
    var processed, skipped, success, failed := 0, 0, 0, 0;
    var i := 0;
    while i < |files|
      invariant 0 <= i <= |files|
      invariant Tally(fs.tree, results, processed, skipped, success, failed)
        == RenameLoop(StartTally(old(fs.tree)), files[..i], previewResults, reply, now)
    {
      RenameLoopSnoc(StartTally(old(fs.tree)), files, previewResults, reply, now, i);
      var st := RenameFile(fs, Tally(fs.tree, results, processed, skipped, success, failed),
                           files[i], PreviewAt(previewResults, i), reply, now);
      results, processed, skipped, success, failed := st.results, st.processed, st.skipped, st.success, st.failed;
      i := i + 1;
    }
    assert files[..i] == files;
    summary := Summary(|files|, processed, skipped, success, failed);
  }

  lemma RenameLoopSnoc(st: Tally, files: seq<Path>, previewResults: seq<Option<PreviewEntry>>, reply: Path -> Reply, now: Stamp, i: nat)
    requires i < |files|
    ensures RenameLoop(st, files[..i + 1], previewResults, reply, now)
      == RenameStep(RenameLoop(st, files[..i], previewResults, reply, now), files[i], PreviewAt(previewResults, i), reply, now)
  {
    assert files[..i + 1][..i] == files[..i];
  }

  /** The body of the loop for one file. `st.tree` is the state of `fs` on
      entry; the returned tallies and results are the new ones. */
  method RenameFile(fs: FileSystem, st: Tally, filePath: Path, preview: Option<PreviewEntry>, reply: Path -> Reply, now: Stamp)
    returns (st': Tally)
    requires fs.tree == st.tree
    modifies fs
    ensures st' == RenameStep(st, filePath, preview, reply, now)
    ensures fs.tree == st'.tree
  {
    if preview.Some? && preview.value.isSameName {
      return st.(skipped := st.skipped + 1, results := st.results + [Skipped(filePath, BaseName(filePath), SameName)]);
    }
    var planned := PlannedName(fs.tree, filePath, preview, reply, now);
    st' := RenamePlanned(fs, st, filePath, planned);
  }

  /** The rest of the body once the name is planned. */
  method RenamePlanned(fs: FileSystem, st: Tally, filePath: Path, planned: Result<string, AnalysisError>)
    returns (st': Tally)
    requires fs.tree == st.tree
    modifies fs
    ensures st' == ApplyPlan(st, filePath, planned)
    ensures fs.tree == st'.tree
  {
    var name := BaseName(filePath);
    if planned.Err? {
      return st.(failed := st.failed + 1, processed := st.processed + 1,
                 results := st.results + [FailedFile(filePath, name, AnalysisMessage(planned.error))]);
    }
    var suggestedName := planned.value;
    var newPath := Join(DirName(filePath), suggestedName);
    if fs.Exists(newPath) {
      return st.(skipped := st.skipped + 1, results := st.results + [Skipped(filePath, name, TargetExists)]);
    }
    var outcome := RenameSingleFile(fs, filePath, suggestedName);
    SingleOutcomeTree(st.tree, filePath, suggestedName, outcome, fs.tree);
    st' := Tally(fs.tree, st.results + [Done(filePath, newPath, name, suggestedName)],
                 st.processed + 1, st.skipped, st.success + 1, st.failed);
    PlanRenamesToFreeTarget(st, filePath, suggestedName);
  }

  /** The tree after `renameSingleFile` is the rename's result, or the old
      tree when the rename fails. */
  lemma SingleOutcomeTree(t: Tree, filePath: Path, name: string, outcome: SingleOutcome, t': Tree)
    requires outcome == RenameSingle(t, filePath, name)
    requires outcome.Moved? ==> t' == RenameIn(t, filePath, outcome.newPath).value
    requires outcome.NotMoved? ==> t' == t
    ensures t' == match RenameIn(t, filePath, Join(DirName(filePath), name)) case Ok(u) => u case Err(_) => t
  {
  }

  /** With the target free, the plan's step renames and counts a success. */
  lemma PlanRenamesToFreeTarget(st: Tally, filePath: Path, name: string)
    requires Join(DirName(filePath), name) !in st.tree
    ensures var newPath := Join(DirName(filePath), name);
      ApplyPlan(st, filePath, Ok(name))
      == Tally(match RenameIn(st.tree, filePath, newPath) case Ok(u) => u case Err(_) => st.tree,
               st.results + [Done(filePath, newPath, BaseName(filePath), name)],
               st.processed + 1, st.skipped, st.success + 1, st.failed)
  {
  }

  // ------------------------------------------- properties of perform-rename

  /** The counting invariant: every file is counted once, as skipped,
      succeeded or failed, and `processed` counts the latter two. */
  lemma {:induction false} TalliesAddUp(st: Tally, files: seq<Path>, previewResults: seq<Option<PreviewEntry>>, reply: Path -> Reply, now: Stamp)
    ensures var end := RenameLoop(st, files, previewResults, reply, now);
      && end.skipped + end.success + end.failed == st.skipped + st.success + st.failed + |files|
      && end.processed - end.success - end.failed == st.processed - st.success - st.failed
      && |end.results| == |st.results| + |files|
  {
    if files != [] {
      var i := |files| - 1;
      TalliesAddUp(st, files[..i], previewResults, reply, now);
    }
  }

  /** From zero: `skipped + success + failed == files.length` and
      `processed == success + failed`. */
  lemma SummaryAddsUp(t: Tree, files: seq<Path>, previewResults: seq<Option<PreviewEntry>>, reply: Path -> Reply, now: Stamp)
    ensures var end := RenameLoop(StartTally(t), files, previewResults, reply, now);
      end.skipped + end.success + end.failed == |files| && end.processed == end.success + end.failed
  {
    TalliesAddUp(StartTally(t), files, previewResults, reply, now);
  }

  /** One step never overwrites: it renames only onto a free path, so no
      stored file is lost and the number of paths stays the same. */
  lemma StepKeepsEveryFile(st: Tally, filePath: Path, preview: Option<PreviewEntry>, reply: Path -> Reply, now: Stamp)
    ensures var after := RenameStep(st, filePath, preview, reply, now).tree;
      |after.Keys| == |st.tree.Keys| && st.tree.Values <= after.Values
  {
    if !(preview.Some? && preview.value.isSameName) {
      var planned := PlannedName(st.tree, filePath, preview, reply, now);
      if planned.Ok? {
        var newPath := Join(DirName(filePath), planned.value);
        if newPath !in st.tree && filePath in st.tree {
          RenameToFreePathKeepsAll(st.tree, filePath, newPath);
        }
      }
    }
  }

  /** Over the whole loop, no existing file is ever overwritten. */
  lemma {:induction false} LoopKeepsEveryFile(st: Tally, files: seq<Path>, previewResults: seq<Option<PreviewEntry>>, reply: Path -> Reply, now: Stamp)
    ensures var after := RenameLoop(st, files, previewResults, reply, now).tree;
      |after.Keys| == |st.tree.Keys| && st.tree.Values <= after.Values
  {
    if files != [] {
      var i := |files| - 1;
      LoopKeepsEveryFile(st, files[..i], previewResults, reply, now);
      StepKeepsEveryFile(RenameLoop(st, files[..i], previewResults, reply, now), files[i], PreviewAt(previewResults, i), reply, now);
    }
  }

  /** A file the preview marked as same-named is skipped: no rename, one
      more skip. */
  lemma SameNameIsSkipped(st: Tally, filePath: Path, preview: Option<PreviewEntry>, reply: Path -> Reply, now: Stamp)
    requires preview.Some? && preview.value.isSameName
    ensures var after := RenameStep(st, filePath, preview, reply, now);
      after.tree == st.tree && after.skipped == st.skipped + 1 && after.success == st.success
      && after.results == st.results + [Skipped(filePath, BaseName(filePath), SameName)]
  {
  }

  /** A file whose target already exists is skipped and nothing is renamed. */
  lemma ExistingTargetIsSkipped(st: Tally, filePath: Path, preview: Option<PreviewEntry>, reply: Path -> Reply, now: Stamp)
    requires !(preview.Some? && preview.value.isSameName)
    requires var planned := PlannedName(st.tree, filePath, preview, reply, now);
      planned.Ok? && Join(DirName(filePath), planned.value) in st.tree
    ensures var after := RenameStep(st, filePath, preview, reply, now);
      after.tree == st.tree && after.skipped == st.skipped + 1 && after.processed == st.processed
  {
    var planned := PlannedName(st.tree, filePath, preview, reply, now);
    assert RenameStep(st, filePath, preview, reply, now) == ApplyPlan(st, filePath, planned);
    ExistingTargetSkipsPlan(st, filePath, planned);
  }

  /** A planned name whose target exists leaves the tree alone and counts a skip. */
  lemma ExistingTargetSkipsPlan(st: Tally, filePath: Path, planned: Result<string, AnalysisError>)
    requires planned.Ok? && Join(DirName(filePath), planned.value) in st.tree
    ensures var after := ApplyPlan(st, filePath, planned);
      after.tree == st.tree && after.skipped == st.skipped + 1 && after.processed == st.processed
  {
  }

  /** A preview's suggested name is used as it is: the model's reply and
      the clock play no part. */
  lemma PreviewNameIsReused(t: Tree, filePath: Path, preview: PreviewEntry, reply1: Path -> Reply, reply2: Path -> Reply, now1: Stamp, now2: Stamp)
    requires Truthy(preview.suggestedName)
    ensures PlannedName(t, filePath, Some(preview), reply1, now1) == PlannedName(t, filePath, Some(preview), reply2, now2)
      == Ok(preview.suggestedName.value)
  {
  }

  /** Without a usable preview the file is analysed afresh, and the name is
      the analysis result followed by the file's extension. */
  lemma MissingPreviewReanalyses(t: Tree, filePath: Path, reply: Path -> Reply, now: Stamp)
    requires filePath in t
    ensures var planned := PlannedName(t, filePath, None, reply, now);
      planned.Ok? && planned.value == AnalyzeImage(filePath, Stat(t, filePath), reply(filePath), now).value + ExtName(filePath)
  {
    AnalysisPassesThroughSuggestedName(filePath, Stat(t, filePath), reply(filePath), now, now, Stat(t, "dummy"));
  }

  /** `renameSingleFile` reports failure by its return value, which the loop
      ignores: a file that is gone by the time it is renamed still counts
      as a success, and nothing moves. */
  lemma MissingFileCountsAsSuccess(st: Tally, filePath: Path, preview: PreviewEntry, reply: Path -> Reply, now: Stamp)
    requires !preview.isSameName && Truthy(preview.suggestedName)
    requires filePath !in st.tree
    requires Join(DirName(filePath), preview.suggestedName.value) !in st.tree
    ensures RenameSingle(st.tree, filePath, preview.suggestedName.value).NotMoved?
    ensures var after := RenameStep(st, filePath, Some(preview), reply, now);
      after.success == st.success + 1 && after.failed == st.failed && after.tree == st.tree
  {
    var name := preview.suggestedName.value;
    assert PlannedName(st.tree, filePath, Some(preview), reply, now) == Ok(name);
    assert RenameStep(st, filePath, Some(preview), reply, now) == ApplyPlan(st, filePath, Ok(name));
    MissingSourceIsCounted(st, filePath, name);
  }

  /** Renaming a file that is gone still counts a success and changes nothing. */
  lemma MissingSourceIsCounted(st: Tally, filePath: Path, name: string)
    requires filePath !in st.tree && Join(DirName(filePath), name) !in st.tree
    ensures var after := ApplyPlan(st, filePath, Ok(name));
      after.success == st.success + 1 && after.failed == st.failed && after.tree == st.tree
  {
    var newPath := Join(DirName(filePath), name);
    assert !RenameIn(st.tree, filePath, newPath).Ok?;
    var after := ApplyPlan(st, filePath, Ok(name));
    assert after == Tally(st.tree, st.results + [Done(filePath, newPath, BaseName(filePath), name)],
                          st.processed + 1, st.skipped, st.success + 1, st.failed);
  }

  // --------------------------------------------------------- scan-directory

  /** The extensions `scan-directory` accepts, listed again in main.js. */
  const ScanExtensions: seq<string> := [".jpg", ".jpeg", ".png", ".bmp", ".tiff", ".webp"]

  /** An entry `scan-directory` keeps: a regular file whose lower-cased
      `path.extname` is one of the extensions. */
  predicate Keeps(n: Node, file: string)
  {
    n.kind == RegularFile && Lower(ExtName(file)) in ScanExtensions
  }

  /** The handler's failure: `readdir` failed, or `stat` failed on an entry. */
  datatype ScanDirError = ReadDirFailed(dirPath: Path) | EntryStatFailed(path: Path)

  /** The loop of `scan-directory` over `names`: stops at the first entry
      whose `stat` fails. */
  function ImageFilesIn(t: Tree, dirPath: Path, names: seq<string>): (r: Result<seq<Path>, ScanDirError>)
    ensures r.Ok? ==> |r.value| <= |names|
    ensures r.Err? ==> r.error.EntryStatFailed? && r.error.path !in t
  {
    if names == [] then Ok([])
    else
      var file := names[|names| - 1];
      match ImageFilesIn(t, dirPath, names[..|names| - 1])
      case Err(e) => Err(e)
      case Ok(found) =>
        var filePath := Join(dirPath, file);
        match Stat(t, filePath)
        case None => Err(EntryStatFailed(filePath))
        case Some(n) => Ok(found + if Keeps(n, file) then [filePath] else [])
  }

  /** The `scan-directory` handler. */
  method HandleScanDirectory(fs: FileSystem, dirPath: Path, listing: Option<seq<string>>) returns (r: Result<seq<Path>, ScanDirError>)
    ensures listing.None? ==> r == Err(ReadDirFailed(dirPath))
    ensures listing.Some? ==> r == ImageFilesIn(fs.tree, dirPath, listing.value)
  {
    if listing.None? {
      return Err(ReadDirFailed(dirPath));
    }
    var files := listing.value;
    var imageFiles: seq<Path> := [];
    var i := 0;
    while i < |files|
      invariant 0 <= i <= |files|
      invariant ImageFilesIn(fs.tree, dirPath, files[..i]) == Ok(imageFiles)
    {
      var filePath := Join(dirPath, files[i]);
      var stat := Stat(fs.tree, filePath);
      if stat.None? {
        ImageFilesInStatFails(fs.tree, dirPath, files, i);
        StatFailureIsFinal(fs.tree, dirPath, files, i + 1);
        return Err(EntryStatFailed(filePath));
      }
      ImageFilesInSnoc(fs.tree, dirPath, files, i);
      ghost var before := imageFiles;
      assert stat.value == fs.tree[filePath];
      if Keeps(stat.value, files[i]) {
        imageFiles := imageFiles + [filePath];
        assert ImageFilesIn(fs.tree, dirPath, files[..i + 1]) == Ok(before + [filePath]);
      } else {
        assert ImageFilesIn(fs.tree, dirPath, files[..i + 1]) == Ok(before + []);
        assert before + [] == before;
      }
      i := i + 1;
    }
    assert files[..i] == files;
    return Ok(imageFiles);
  }

  /** One more entry, whose `stat` succeeds. */
  lemma ImageFilesInSnoc(t: Tree, dirPath: Path, names: seq<string>, k: nat)
    requires k < |names| && ImageFilesIn(t, dirPath, names[..k]).Ok? && Join(dirPath, names[k]) in t
    ensures var filePath := Join(dirPath, names[k]);
      ImageFilesIn(t, dirPath, names[..k + 1])
      == Ok(ImageFilesIn(t, dirPath, names[..k]).value + if Keeps(t[filePath], names[k]) then [filePath] else [])
  {
    var longer := names[..k + 1];
    assert longer[..|longer| - 1] == names[..k] && longer[|longer| - 1] == names[k];
  }

  /** One more entry, whose `stat` fails. */
  lemma ImageFilesInStatFails(t: Tree, dirPath: Path, names: seq<string>, k: nat)
    requires k < |names| && ImageFilesIn(t, dirPath, names[..k]).Ok? && Join(dirPath, names[k]) !in t
    ensures ImageFilesIn(t, dirPath, names[..k + 1]) == Err(EntryStatFailed(Join(dirPath, names[k])))
  {
    assert names[..k + 1][..k] == names[..k];
  }

  /** Once the loop has failed, later entries do not change the outcome. */
  lemma {:induction false} StatFailureIsFinal(t: Tree, dirPath: Path, names: seq<string>, k: nat)
    requires k <= |names| && ImageFilesIn(t, dirPath, names[..k]).Err?
    ensures ImageFilesIn(t, dirPath, names) == ImageFilesIn(t, dirPath, names[..k])
    decreases |names| - k
  {
    if k < |names| {
      assert names[..k + 1][..k] == names[..k];
      StatFailureIsFinal(t, dirPath, names, k + 1);
    } else {
      assert names[..k] == names;
    }
  }

  /** What the scan keeps: in listing order, the paths of the regular
      files with a supported extension. */
  lemma {:induction false} ScanKeepsRegularImages(t: Tree, dirPath: Path, names: seq<string>)
    requires ImageFilesIn(t, dirPath, names).Ok?
    ensures var found := ImageFilesIn(t, dirPath, names).value;
      && |found| <= |names|
      && IsSubseq(found, JoinAll(dirPath, names))
      && AllRegular(t, found)
  {
    if names != [] {
      var init, file := names[..|names| - 1], names[|names| - 1];
      ImageFilesInLast(t, dirPath, names);
      ScanKeepsRegularImages(t, dirPath, init);
      var found := ImageFilesIn(t, dirPath, init).value;
      var filePath := Join(dirPath, file);
      assert JoinAll(dirPath, names) == JoinAll(dirPath, init) + [filePath];
      if Keeps(t[filePath], file) {
        assert ImageFilesIn(t, dirPath, names).value == found + [filePath];
        SubseqExtendBoth(found, JoinAll(dirPath, init), filePath);
        AllRegularSnoc(t, found, filePath);
      } else {
        assert ImageFilesIn(t, dirPath, names).value == found;
        SubseqExtend(found, JoinAll(dirPath, init), filePath);
      }
    }
  }

  /** Every listed name has an entry in `t`. */
  predicate AllListed(t: Tree, dirPath: Path, names: seq<string>)
  {
    forall i :: 0 <= i < |names| ==> Join(dirPath, names[i]) in t
  }

  lemma AllListedSnoc(t: Tree, dirPath: Path, names: seq<string>)
    requires names != []
    ensures AllListed(t, dirPath, names)
      <==> AllListed(t, dirPath, names[..|names| - 1]) && Join(dirPath, names[|names| - 1]) in t
  {
    assert forall i :: 0 <= i < |names| - 1 ==> names[..|names| - 1][i] == names[i];
  }

  lemma ImageFilesInOkStep(t: Tree, dirPath: Path, names: seq<string>)
    requires names != []
    ensures ImageFilesIn(t, dirPath, names).Ok?
      <==> ImageFilesIn(t, dirPath, names[..|names| - 1]).Ok? && Join(dirPath, names[|names| - 1]) in t
  {
  }

  /** The scan fails exactly when the `stat` of some listed name fails. */
  lemma {:induction false} ImageFilesInOk(t: Tree, dirPath: Path, names: seq<string>)
    ensures ImageFilesIn(t, dirPath, names).Ok? <==> AllListed(t, dirPath, names)
  {
    if names != [] {
      ImageFilesInOk(t, dirPath, names[..|names| - 1]);
      ImageFilesInOkStep(t, dirPath, names);
      AllListedSnoc(t, dirPath, names);
    }
  }

  /** Every name that passes `keep` has its path in `found`. */
  predicate KeepsAllOf(names: seq<string>, keep: string -> bool, path: string -> Path, found: seq<Path>)
  {
    forall i :: 0 <= i < |names| && keep(names[i]) ==> path(names[i]) in found
  }

  lemma KeepsAllOfSnoc(names: seq<string>, keep: string -> bool, path: string -> Path, before: seq<Path>, found: seq<Path>)
    requires names != []
    requires KeepsAllOf(names[..|names| - 1], keep, path, before)
    requires var last := names[|names| - 1];
      found == before + if keep(last) then [path(last)] else []
    ensures KeepsAllOf(names, keep, path, found)
  {
    var init := names[..|names| - 1];
    forall i | 0 <= i < |names| && keep(names[i])
      ensures path(names[i]) in found
    {
      if i < |init| {
        assert names[i] == init[i];
      }
    }
  }

  /** The test `scan-directory` applies to a listed name. */
  function ScanTest(t: Tree, dirPath: Path): string -> bool
  {
    name => Join(dirPath, name) in t && Keeps(t[Join(dirPath, name)], name)
  }

  /** Every listed name whose node and extension pass is kept. */
  lemma {:induction false} ScanKeepsEveryImage(t: Tree, dirPath: Path, names: seq<string>)
    requires ImageFilesIn(t, dirPath, names).Ok?
    ensures AllListed(t, dirPath, names)
    ensures KeepsAllOf(names, ScanTest(t, dirPath), name => Join(dirPath, name), ImageFilesIn(t, dirPath, names).value)
  {
    ImageFilesInOk(t, dirPath, names);
    if names != [] {
      var init := names[..|names| - 1];
      ImageFilesInLast(t, dirPath, names);
      ScanKeepsEveryImage(t, dirPath, init);
      KeepsAllOfSnoc(names, ScanTest(t, dirPath), name => Join(dirPath, name),
                     ImageFilesIn(t, dirPath, init).value, ImageFilesIn(t, dirPath, names).value);
    }
  }

  /** The same, spelled out per name. */
  lemma ScanKeepsEveryListedImage(t: Tree, dirPath: Path, names: seq<string>)
    requires ImageFilesIn(t, dirPath, names).Ok?
    ensures forall i :: 0 <= i < |names| ==> Join(dirPath, names[i]) in t
    ensures forall i :: 0 <= i < |names| && Keeps(t[Join(dirPath, names[i])], names[i]) ==>
      Join(dirPath, names[i]) in ImageFilesIn(t, dirPath, names).value
  {
    ScanKeepsEveryImage(t, dirPath, names);
    forall i | 0 <= i < |names| && Keeps(t[Join(dirPath, names[i])], names[i])
      ensures Join(dirPath, names[i]) in ImageFilesIn(t, dirPath, names).value
    {
      assert ScanTest(t, dirPath)(names[i]);
    }
  }

  /** Every kept path is the path of a listed name whose node and extension pass. */
  lemma {:induction false} ScanKeepsOnlyImages(t: Tree, dirPath: Path, names: seq<string>)
    requires ImageFilesIn(t, dirPath, names).Ok?
    ensures forall p :: p in ImageFilesIn(t, dirPath, names).value ==>
      p in t && exists i :: 0 <= i < |names| && p == Join(dirPath, names[i]) && Keeps(t[p], names[i])
  {
    if names != [] {
      var init, file := names[..|names| - 1], names[|names| - 1];
      ImageFilesInLast(t, dirPath, names);
      ScanKeepsOnlyImages(t, dirPath, init);
      var before := ImageFilesIn(t, dirPath, init).value;
      forall p | p in ImageFilesIn(t, dirPath, names).value
        ensures p in t && exists i :: 0 <= i < |names| && p == Join(dirPath, names[i]) && Keeps(t[p], names[i])
      {
        if p in before {
          var i :| 0 <= i < |init| && p == Join(dirPath, init[i]) && Keeps(t[p], init[i]);
          assert names[i] == init[i];
        } else {
          assert names[|names| - 1] == file;
        }
      }
    }
  }

  /** With a directory path as `join` leaves it and names as `readdir`
      gives them, every kept path is a regular file whose lower-cased
      `path.extname` is one of the six extensions. */
  lemma ScanKeepsSupportedExtensions(t: Tree, dirPath: Path, names: seq<string>)
    requires ImageFilesIn(t, dirPath, names).Ok?
    requires IsNormalDir(dirPath)
    requires forall i :: 0 <= i < |names| ==> names[i] != "" && NoSlash(names[i])
    ensures forall p :: p in ImageFilesIn(t, dirPath, names).value ==>
      p in t && t[p].kind == RegularFile && Lower(ExtName(p)) in ScanExtensions
  {
    ScanKeepsOnlyImages(t, dirPath, names);
    forall p | p in ImageFilesIn(t, dirPath, names).value
      ensures p in t && t[p].kind == RegularFile && Lower(ExtName(p)) in ScanExtensions
    {
      var i :| 0 <= i < |names| && p == Join(dirPath, names[i]) && Keeps(t[p], names[i]);
      ExtNameOfJoin(dirPath, names[i]);
    }
  }

  /** The last entry of a scan that did not fail: its `stat` succeeded and
      it was kept or not. */
  lemma ImageFilesInLast(t: Tree, dirPath: Path, names: seq<string>)
    requires names != [] && ImageFilesIn(t, dirPath, names).Ok?
    ensures var init, file := names[..|names| - 1], names[|names| - 1];
      var filePath := Join(dirPath, file);
      && ImageFilesIn(t, dirPath, init).Ok? && filePath in t
      && ImageFilesIn(t, dirPath, names).value
         == ImageFilesIn(t, dirPath, init).value + if Keeps(t[filePath], file) then [filePath] else []
  {
  }

  lemma AllRegularSnoc(t: Tree, paths: seq<Path>, p: Path)
    requires AllRegular(t, paths) && p in t && t[p].kind == RegularFile
    ensures AllRegular(t, paths + [p])
  {
  }

  /** Every path names a regular file of `t`. */
  predicate AllRegular(t: Tree, paths: seq<Path>)
  {
    forall i :: 0 <= i < |paths| ==> paths[i] in t && t[paths[i]].kind == RegularFile
  }

  /** `path.join(dirPath, n)` for every name, in order. */
  function JoinAll(dirPath: Path, names: seq<string>): seq<Path>
  {
    if names == [] then [] else JoinAll(dirPath, names[..|names| - 1]) + [Join(dirPath, names[|names| - 1])]
  }

  /** A name without an extension is never kept. */
  lemma NoExtensionIsNotKept(n: Node, file: string)
    requires ExtName(file) == ""
    ensures !Keeps(n, file)
  {
    assert Lower(ExtName(file)) == [];
  }

  /** A dotfile named like an extension is an image to `isImageFile` but not
      to `scan-directory`, whose `path.extname` of it is empty. */
  lemma DotfileSeenDifferently(n: Node)
    ensures IsImageFile(".png") && !Keeps(n, ".png")
  {
    DotfileIsImage();
    DotfileHasNoExtension();
    NoExtensionIsNotKept(n, ".png");
  }
}
