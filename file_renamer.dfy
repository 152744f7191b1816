/** `FileRenamer`: plans one rename per image of a directory
    (`scanDirectory`, `previewRenaming`), carries the plans out or only
    reports them on a dry run (`performRename`), and renames a single file
    (`renameSingleFile`). The directory listing is an input (`None` when
    `readdir` fails); the model's reply for each image is a function of its
    path; the clock is frozen for the whole batch. */
module FileRenamer {
  import opened Results
  import opened Seqs
  import opened Text
  import opened NodePath
  import opened IsoDate
  import opened NodeFs
  import opened ImageAnalyzer

  /** One plan entry. The entries `scanDirectory` builds never set
      `skipped` or `error`; `performRename` tests both anyway. */
  datatype ScanEntry = ScanEntry(
    originalPath: Path,
    originalName: string,
    extractedText: string,
    metadata: Option<Metadata>,
    suggestedName: string,
    wouldRename: bool,
    skipped: bool,
    error: Option<string>)  // `Some` stands for a truthy `item.error`; the scan never sets an empty one

  /** `scanDirectory` rejects with "Failed to scan directory" when `readdir` fails. */
  datatype ScanError = CannotReadDirectory(dirPath: Path)

  // -------------------------------------------------------- scanDirectory

  /** `${metadata?.width}` or `${metadata?.height}`: `undefined` when the
      metadata is `null`. */
  function DimensionText(metadata: Option<Metadata>, width: bool): string
  {
    match metadata
    case None => "undefined"
    case Some(m) => Decimal(if width then m.width else m.height)
  }

  /** The name of the catch branch: `image_<w>x<h>_<Date.now()>`. */
  function ErrorPlanName(metadata: Option<Metadata>, nowMs: nat): string
  {
    "image_" + DimensionText(metadata, true) + "x" + DimensionText(metadata, false) + "_" + Decimal(nowMs)
  }

  lemma AppendNameChars(a: string, b: string)
    requires AllNameChars(a) && AllNameChars(b)
    ensures AllNameChars(a + b)
  {
    assert forall i :: |a| <= i < |a + b| ==> (a + b)[i] == b[i - |a|];
  }

  lemma DimensionTextNameChars(metadata: Option<Metadata>, width: bool)
    ensures AllNameChars(DimensionText(metadata, width))
  {
    if metadata.None? {
      var u := "undefined";
      assert forall i :: 0 <= i < |u| ==> 'a' <= u[i] <= 'z';
    }
  }

  /** The catch-branch name is made of name characters. */
  lemma ErrorPlanNameChars(metadata: Option<Metadata>, nowMs: nat)
    ensures AllNameChars(ErrorPlanName(metadata, nowMs))
  {
    var w, h := DimensionText(metadata, true), DimensionText(metadata, false);
    DimensionTextNameChars(metadata, true);
    DimensionTextNameChars(metadata, false);
    var image := "image_";
    assert AllNameChars(image) by {
      assert forall i :: 0 <= i < |image| ==> image[i] == '_' || 'a' <= image[i] <= 'z';
    }
    AppendNameChars(image, w);
    AppendNameChars(image + w, "x");
    AppendNameChars(image + w + "x", h);
    AppendNameChars(image + w + "x" + h, "_");
    AppendNameChars(image + w + "x" + h + "_", Decimal(nowMs));
  }

  /** A non-empty string of name characters is a stem without `.` or `/`. */
  lemma NameCharsArePlainStem(s: string)
    requires s != [] && AllNameChars(s)
    ensures forall i :: 0 <= i < |s| ==> s[i] != '.' && s[i] != '/'
  {
  }

  /** The body of the `for` loop of `scanDirectory` for one image `file`:
      analyse, read the metadata, add the date prefix and the extension of
      `file`; when the analysis rejects, the catch branch's name. */
  function ScanEntryFor(t: Tree, dirPath: Path, file: string, reply: Path -> Reply, now: Stamp, nowMs: nat): (r: ScanEntry)
    ensures r.originalPath == Join(dirPath, file) && r.originalName == file
    ensures !r.skipped && r.error.None?
    ensures r.wouldRename <==> r.suggestedName != file
  {
    var filePath := Join(dirPath, file);
    var stat := Stat(t, filePath);
    var metadata := ImageMetadata(filePath, stat);
    match AnalyzeImage(filePath, stat, reply(filePath), now)
    case Ok(text) =>
      PlanEntry(filePath, file, text, metadata, GenerateSuggestedName(text, now, Stat(t, "dummy")).value)
    case Err(_) =>
      PlanEntry(filePath, file, "", metadata, ErrorPlanName(metadata, nowMs))
  }

  /** The object pushed for `file` once its name without extension is
      known: the name gets the file's extension, and `wouldRename` compares
      the two names. */
  function PlanEntry(filePath: Path, file: string, text: string, metadata: Option<Metadata>, stem: string): (r: ScanEntry)
    ensures r.originalPath == filePath && r.originalName == file
    ensures !r.skipped && r.error.None?
    ensures r.wouldRename <==> r.suggestedName != file
    ensures |ExtName(file)| <= |r.suggestedName| && r.suggestedName[|r.suggestedName| - |ExtName(file)|..] == ExtName(file)
  {
    var name := stem + ExtName(file);
    ScanEntry(filePath, file, text, metadata, name, file != name, false, None)
  }

  /** A plan entry built from a stem of name characters keeps the file's
      extension. */
  lemma PlanEntryFacts(filePath: Path, file: string, text: string, metadata: Option<Metadata>, stem: string)
    requires stem != [] && AllNameChars(stem)
    ensures var r := PlanEntry(filePath, file, text, metadata, stem);
      && r.originalPath == filePath && r.originalName == file
      && !r.skipped && r.error.None?
      && (r.wouldRename <==> r.suggestedName != file)
      && ExtName(r.suggestedName) == ExtName(file)
  {
    NameCharsArePlainStem(stem);
    ExtNameCarriesOver(stem, file);
  }

  /** What one plan entry holds: its paths, a suggested name with the
      same extension as the file, and `wouldRename` exactly when the names
      differ; no entry is skipped or carries an error. */
  lemma ScanEntryFacts(t: Tree, dirPath: Path, file: string, reply: Path -> Reply, now: Stamp, nowMs: nat)
    ensures var r := ScanEntryFor(t, dirPath, file, reply, now, nowMs);
      && r.originalPath == Join(dirPath, file) && r.originalName == file
      && !r.skipped && r.error.None?
      && (r.wouldRename <==> r.suggestedName != file)
      && ExtName(r.suggestedName) == ExtName(file)
  {
    var filePath := Join(dirPath, file);
    var stat := Stat(t, filePath);
    var metadata := ImageMetadata(filePath, stat);
    match AnalyzeImage(filePath, stat, reply(filePath), now)
    case Ok(text) =>
      AnalysisPassesThroughSuggestedName(filePath, stat, reply(filePath), now, now, Stat(t, "dummy"));
      PlanEntryFacts(filePath, file, text, metadata, text);
    case Err(_) =>
      ErrorPlanNameChars(metadata, nowMs);
      PlanEntryFacts(filePath, file, "", metadata, ErrorPlanName(metadata, nowMs));
  }

  /** The suggested name is the analysis result followed by the file's
      extension, or the catch branch's name when the analysis rejects. */
  lemma ScanEntryName(t: Tree, dirPath: Path, file: string, reply: Path -> Reply, now: Stamp, nowMs: nat)
    ensures var filePath := Join(dirPath, file);
      var r := ScanEntryFor(t, dirPath, file, reply, now, nowMs);
      match AnalyzeImage(filePath, Stat(t, filePath), reply(filePath), now)
      case Ok(text) => r.extractedText == text && r.suggestedName == text + ExtName(file)
      case Err(_) => r.extractedText == "" && r.suggestedName == ErrorPlanName(None, nowMs) + ExtName(file)
  {
    var filePath := Join(dirPath, file);
    var stat := Stat(t, filePath);
    if AnalyzeImage(filePath, stat, reply(filePath), now).Ok? {
      AnalysisPassesThroughSuggestedName(filePath, stat, reply(filePath), now, now, Stat(t, "dummy"));
    }
  }

  /** One entry per image file, in order. */
  function ScanEntries(t: Tree, dirPath: Path, files: seq<string>, reply: Path -> Reply, now: Stamp, nowMs: nat): seq<ScanEntry>
  {
    Map(file => ScanEntryFor(t, dirPath, file, reply, now, nowMs), files)
  }

  /** What `scanDirectory(dirPath)` resolves or rejects with. */
  function Scan(t: Tree, dirPath: Path, listing: Option<seq<string>>, reply: Path -> Reply, now: Stamp, nowMs: nat): (r: Result<seq<ScanEntry>, ScanError>)
    ensures r.Err? <==> listing.None?
    ensures r.Err? ==> r.error == CannotReadDirectory(dirPath)
    ensures listing.Some? ==> |r.value| == |Filter(listing.value, IsImageFile)|
  {
    match listing
    case None => Err(CannotReadDirectory(dirPath))
    case Some(names) => Ok(ScanEntries(t, dirPath, Filter(names, IsImageFile), reply, now, nowMs))
  }

  /** `scanDirectory(dirPath)`. */
  method ScanDirectory(fs: FileSystem, dirPath: Path, listing: Option<seq<string>>, reply: Path -> Reply, now: Stamp, nowMs: nat)
    returns (r: Result<seq<ScanEntry>, ScanError>)
    ensures r == Scan(fs.tree, dirPath, listing, reply, now, nowMs)
  {
    if listing.None? {
      return Err(CannotReadDirectory(dirPath));
    }
    var imageFiles := Filter(listing.value, IsImageFile);
    var t := fs.tree;
    var results: seq<ScanEntry> := [];
    var i := 0;
    while i < |imageFiles|
      invariant 0 <= i <= |imageFiles|
      invariant results == ScanEntries(t, dirPath, imageFiles[..i], reply, now, nowMs)
    {
      MapSnoc(file => ScanEntryFor(t, dirPath, file, reply, now, nowMs), imageFiles, i);
      results := results + [ScanEntryFor(t, dirPath, imageFiles[i], reply, now, nowMs)];
      i := i + 1;
    }
    assert imageFiles[..i] == imageFiles;
    return Ok(results);
  }

  /** The names the plan entries were made for. */
  function OriginalNames(entries: seq<ScanEntry>): seq<string>
  {
    seq(|entries|, i requires 0 <= i < |entries| => entries[i].originalName)
  }

  /** The facts of `ScanEntryFacts` about an entry made for `file`. */
  predicate PlansFile(e: ScanEntry, dirPath: Path, file: string)
  {
    && e.originalName == file && e.originalPath == Join(dirPath, file)
    && !e.skipped && e.error.None?
    && ExtName(e.suggestedName) == ExtName(file)
    && (e.wouldRename <==> file != e.suggestedName)
  }

  /** The entries match the files one to one. */
  lemma ScanEntriesPlanFiles(t: Tree, dirPath: Path, files: seq<string>, reply: Path -> Reply, now: Stamp, nowMs: nat)
    ensures var entries := ScanEntries(t, dirPath, files, reply, now, nowMs);
      |entries| == |files| && forall i :: 0 <= i < |entries| ==> PlansFile(entries[i], dirPath, files[i])
  {
    var entries := ScanEntries(t, dirPath, files, reply, now, nowMs);
    forall i | 0 <= i < |entries|
      ensures PlansFile(entries[i], dirPath, files[i])
    {
      MapAt(file => ScanEntryFor(t, dirPath, file, reply, now, nowMs), files, i);
      ScanEntryFacts(t, dirPath, files[i], reply, now, nowMs);
    }
  }

  /** Exactly one entry per name `isImageFile` accepts, in listing order;
      each suggested name keeps the extension of its file, case and all,
      and `wouldRename` says whether the two names differ. */
  lemma ScanPlansEveryImage(t: Tree, dirPath: Path, names: seq<string>, reply: Path -> Reply, now: Stamp, nowMs: nat)
    ensures var entries := Scan(t, dirPath, Some(names), reply, now, nowMs).value;
      && OriginalNames(entries) == Filter(names, IsImageFile)
      && forall i :: 0 <= i < |entries| ==>
        && entries[i].originalPath == Join(dirPath, entries[i].originalName)
        && ExtName(entries[i].suggestedName) == ExtName(entries[i].originalName)
        && (entries[i].wouldRename <==> entries[i].originalName != entries[i].suggestedName)
  {
    var files := Filter(names, IsImageFile);
    var entries := ScanEntries(t, dirPath, files, reply, now, nowMs);
    assert Scan(t, dirPath, Some(names), reply, now, nowMs).value == entries;
    ScanEntriesPlanFiles(t, dirPath, files, reply, now, nowMs);
    PlannedEntries(entries, dirPath, files);
  }

  lemma PlannedEntries(entries: seq<ScanEntry>, dirPath: Path, files: seq<string>)
    requires |entries| == |files| && forall i :: 0 <= i < |entries| ==> PlansFile(entries[i], dirPath, files[i])
    ensures OriginalNames(entries) == files
    ensures forall i :: 0 <= i < |entries| ==>
      && entries[i].originalPath == Join(dirPath, entries[i].originalName)
      && ExtName(entries[i].suggestedName) == ExtName(entries[i].originalName)
      && (entries[i].wouldRename <==> entries[i].originalName != entries[i].suggestedName)
  {
  }

  /** Every name in a successful scan is an image name from the listing,
      and no entry carries an error. */
  lemma ScanNamesFromListing(t: Tree, dirPath: Path, names: seq<string>, reply: Path -> Reply, now: Stamp, nowMs: nat)
    ensures var entries := Scan(t, dirPath, Some(names), reply, now, nowMs).value;
      forall i :: 0 <= i < |entries| ==>
        && entries[i].originalName in names && IsImageFile(entries[i].originalName)
        && !entries[i].skipped && entries[i].error.None?
  {
    var files := Filter(names, IsImageFile);
    var entries := ScanEntries(t, dirPath, files, reply, now, nowMs);
    ScanEntriesPlanFiles(t, dirPath, files, reply, now, nowMs);
    forall i | 0 <= i < |entries|
      ensures entries[i].originalName in names && IsImageFile(entries[i].originalName)
      ensures !entries[i].skipped && entries[i].error.None?
    {
      assert PlansFile(entries[i], dirPath, files[i]);
      FilterMembership(names, IsImageFile, files[i]);
    }
  }

  // ------------------------------------------------------- previewRenaming

  predicate HasNoError(e: ScanEntry)
  {
    e.error.None?
  }

  /** `previewRenaming(dirPath)`: the scan without the entries that carry an error. */
  method PreviewRenaming(fs: FileSystem, dirPath: Path, listing: Option<seq<string>>, reply: Path -> Reply, now: Stamp, nowMs: nat)
    returns (r: Result<seq<ScanEntry>, ScanError>)
    ensures r == Scan(fs.tree, dirPath, listing, reply, now, nowMs)
  {
    var scan := ScanDirectory(fs, dirPath, listing, reply, now, nowMs);
    if scan.Err? {
      return scan;
    }
    ScanNamesFromListing(fs.tree, dirPath, listing.value, reply, now, nowMs);
    PreviewKeepsEveryEntry(scan.value);
    return Ok(Filter(scan.value, HasNoError));
  }

  /** Entries without errors pass the filter: since the scan never sets
      one, the preview is the whole scan. */
  lemma PreviewKeepsEveryEntry(entries: seq<ScanEntry>)
    requires forall i :: 0 <= i < |entries| ==> entries[i].error.None?
    ensures Filter(entries, HasNoError) == entries
  {
    FilterKeepsAll(entries, HasNoError);
  }

  // --------------------------------------------------------- performRename

  datatype Status = DryRun | Renamed

  /** `{...item, newPath, status}`. */
  datatype RenameRecord = RenameRecord(item: ScanEntry, newPath: Path, status: Status)

  /** What `performRename` resolves to. */
  datatype RenameReport = RenameReport(successful: seq<RenameRecord>, failed: seq<ScanEntry>)

  /** The state the loop of `performRename` updates: the filesystem and
      the two arrays. */
  datatype Progress = Progress(tree: Tree, successful: seq<RenameRecord>, failed: seq<ScanEntry>)

  /** Where an entry is moved to: `path.join(dirPath, item.suggestedName)`. */
  function TargetOf(dirPath: Path, item: ScanEntry): Path
  {
    Join(dirPath, item.suggestedName)
  }

  /** An entry the loop tries to rename. */
  predicate IsEligible(item: ScanEntry)
  {
    !item.skipped && item.error.None? && item.wouldRename
  }

  /** An entry the loop reports as failed without trying it. */
  predicate CarriesError(item: ScanEntry)
  {
    !item.skipped && item.error.Some?
  }

  /** An entry the loop reports, as renamed or as failed. */
  predicate IsReported(item: ScanEntry)
  {
    IsEligible(item) || CarriesError(item)
  }

  /** One iteration of the loop of `performRename`: an entry it does not
      report changes nothing, a dry run never touches the filesystem, and a
      reported entry adds exactly one record to the two lists. */
  function PerformStep(dirPath: Path, dryRun: bool, st: Progress, item: ScanEntry): (r: Progress)
    ensures !IsReported(item) ==> r == st
    ensures dryRun ==> r.tree == st.tree
    ensures |r.successful| + |r.failed| == |st.successful| + |st.failed| + if IsReported(item) then 1 else 0
    ensures |st.successful| <= |r.successful| && r.successful[..|st.successful|] == st.successful
    ensures |st.failed| <= |r.failed| && r.failed[..|st.failed|] == st.failed
  {
    if item.skipped then st
    else if item.error.Some? then st.(failed := st.failed + [item])
    else if !item.wouldRename then st
    else
      var newPath := TargetOf(dirPath, item);
      if dryRun then st.(successful := st.successful + [RenameRecord(item, newPath, DryRun)])
      else
        match RenameIn(st.tree, item.originalPath, newPath)
        case Ok(t) => Progress(t, st.successful + [RenameRecord(item, newPath, Renamed)], st.failed)
        case Err(e) => st.(failed := st.failed + [item.(error := Some(RenameMessage(e, item.originalPath, newPath)))])
  }

  /** The loop of `performRename` over `items`, from `st`. */
  function PerformAll(dirPath: Path, dryRun: bool, st: Progress, items: seq<ScanEntry>): Progress
  {
    if items == [] then st
    else PerformStep(dirPath, dryRun, PerformAll(dirPath, dryRun, st, items[..|items| - 1]), items[|items| - 1])
  }

  /** The outcome of `performRename` once the scan has produced `items`. */
  function PerformOn(t: Tree, dirPath: Path, dryRun: bool, items: seq<ScanEntry>): Progress
  {
    PerformAll(dirPath, dryRun, Progress(t, [], []), items)
  }

  /** `performRename(dirPath, dryRun)`. */
  method PerformRename(fs: FileSystem, dirPath: Path, dryRun: bool, listing: Option<seq<string>>, reply: Path -> Reply, now: Stamp, nowMs: nat)
    returns (r: Result<RenameReport, ScanError>)
    modifies fs
    ensures match Scan(old(fs.tree), dirPath, listing, reply, now, nowMs)
      case Err(e) => r == Err(e) && fs.tree == old(fs.tree)
      case Ok(items) =>
        var p := PerformOn(old(fs.tree), dirPath, dryRun, items);
        r == Ok(RenameReport(p.successful, p.failed)) && fs.tree == p.tree
  {
    var scan := ScanDirectory(fs, dirPath, listing, reply, now, nowMs);
    if scan.Err? {
      return Err(scan.error);
    }
    var report := PerformItems(fs, dirPath, dryRun, scan.value);
    return Ok(report);
  }

  /** The `for` loop of `performRename` over the scanned entries. */
  method PerformItems(fs: FileSystem, dirPath: Path, dryRun: bool, items: seq<ScanEntry>) returns (report: RenameReport)
    modifies fs
    ensures var p := PerformOn(old(fs.tree), dirPath, dryRun, items);
      report == RenameReport(p.successful, p.failed) && fs.tree == p.tree
  {
    var successful: seq<RenameRecord> := [];
    var failed: seq<ScanEntry> := [];
    var i := 0;
    while i < |items|
      invariant 0 <= i <= |items|
      invariant Progress(fs.tree, successful, failed) == PerformOn(old(fs.tree), dirPath, dryRun, items[..i])
    {
      PerformOnSnoc(old(fs.tree), dirPath, dryRun, items, i);
      successful, failed := PerformItem(fs, dirPath, dryRun, successful, failed, items[i]);
      i := i + 1;
    }
    assert items[..i] == items;
    return RenameReport(successful, failed);
  }

  lemma PerformOnSnoc(t: Tree, dirPath: Path, dryRun: bool, items: seq<ScanEntry>, i: nat)
    requires i < |items|
    ensures PerformOn(t, dirPath, dryRun, items[..i + 1])
      == PerformStep(dirPath, dryRun, PerformOn(t, dirPath, dryRun, items[..i]), items[i])
  {
    assert items[..i + 1][..i] == items[..i];
  }

  /** The body of the loop of `performRename` for one entry. */
  method PerformItem(fs: FileSystem, dirPath: Path, dryRun: bool, successful: seq<RenameRecord>, failed: seq<ScanEntry>, item: ScanEntry)
    returns (successful': seq<RenameRecord>, failed': seq<ScanEntry>)
    modifies fs
    ensures Progress(fs.tree, successful', failed') == PerformStep(dirPath, dryRun, Progress(old(fs.tree), successful, failed), item)
  {
    successful', failed' := successful, failed;
    if item.skipped {
      return;
    }
    if item.error.Some? {
      failed' := failed + [item];
      return;
    }
    if !item.wouldRename {
      return;
    }
    var newPath := TargetOf(dirPath, item);
    if dryRun {
      successful' := successful + [RenameRecord(item, newPath, DryRun)];
    } else {
      var err := fs.Rename(item.originalPath, newPath);
      if err.None? {
        successful' := successful + [RenameRecord(item, newPath, Renamed)];
      } else {
        failed' := failed + [item.(error := Some(RenameMessage(err.value, item.originalPath, newPath)))];
      }
    }
  }

  // ------------------------------------------- properties of performRename

  function RecordPaths(records: seq<RenameRecord>): seq<Path>
  {
    if records == [] then []
    else RecordPaths(records[..|records| - 1]) + [records[|records| - 1].item.originalPath]
  }

  function EntryPaths(entries: seq<ScanEntry>): seq<Path>
  {
    if entries == [] then []
    else EntryPaths(entries[..|entries| - 1]) + [entries[|entries| - 1].originalPath]
  }

  /** An entry that is not to be renamed changes nothing: it lands in
      neither list, and no rename is attempted. */
  lemma UnchangedNameIsNoOp(dirPath: Path, dryRun: bool, st: Progress, item: ScanEntry)
    requires !item.skipped && item.error.None? && !item.wouldRename
    ensures PerformStep(dirPath, dryRun, st, item) == st
  {
  }

  /** Each entry adds at most one line to the report. */
  lemma {:induction false} PerformReportBound(dirPath: Path, dryRun: bool, st: Progress, items: seq<ScanEntry>)
    ensures var p := PerformAll(dirPath, dryRun, st, items);
      |p.successful| + |p.failed| <= |st.successful| + |st.failed| + |items|
      && |st.successful| <= |p.successful| && |st.failed| <= |p.failed|
  {
    if items != [] {
      PerformReportBound(dirPath, dryRun, st, items[..|items| - 1]);
    }
  }

  /** With the filesystem for real, a reported entry lands in exactly one
      list: in `failed`, under its own path and with an error, when it
      carried one or its rename fails; otherwise in `successful`, renamed
      to its target. */
  lemma StepReportsOnce(dirPath: Path, st: Progress, item: ScanEntry)
    requires IsReported(item)
    ensures var after := PerformStep(dirPath, false, st, item);
      var fails := item.error.Some? || RenameIn(st.tree, item.originalPath, TargetOf(dirPath, item)).Err?;
      && (fails ==>
        && after.successful == st.successful && after.tree == st.tree
        && |after.failed| == |st.failed| + 1
        && after.failed[|st.failed|].originalPath == item.originalPath
        && after.failed[|st.failed|].error.Some?)
      && (!fails ==>
        && after.failed == st.failed
        && after.successful == st.successful + [RenameRecord(item, TargetOf(dirPath, item), Renamed)]
        && after.tree == RenameIn(st.tree, item.originalPath, TargetOf(dirPath, item)).value)
  {
  }

  /** Over the whole loop, dry run or not, the two lists together hold one
      record per reported entry, and nothing for the others. */
  lemma {:induction false} PerformPartition(dirPath: Path, dryRun: bool, st: Progress, items: seq<ScanEntry>)
    ensures var p := PerformAll(dirPath, dryRun, st, items);
      |p.successful| + |p.failed| == |st.successful| + |st.failed| + |Filter(items, IsReported)|
  {
    if items != [] {
      PerformPartition(dirPath, dryRun, st, items[..|items| - 1]);
    }
  }

  /** Both lists keep the order of the scan: the paths they hold form a
      subsequence of the scanned paths. */
  lemma {:induction false} PerformKeepsOrder(t: Tree, dirPath: Path, dryRun: bool, items: seq<ScanEntry>)
    ensures var p := PerformOn(t, dirPath, dryRun, items);
      IsSubseq(RecordPaths(p.successful), EntryPaths(items)) && IsSubseq(EntryPaths(p.failed), EntryPaths(items))
  {
    if items != [] {
      var init := items[..|items| - 1];
      var item := items[|items| - 1];
      PerformKeepsOrder(t, dirPath, dryRun, init);
      var before := PerformOn(t, dirPath, dryRun, init);
      var after := PerformStep(dirPath, dryRun, before, item);
      assert after == PerformOn(t, dirPath, dryRun, items);
      assert EntryPaths(items) == EntryPaths(init) + [item.originalPath];
      StepKeepsOrder(dirPath, dryRun, before, item);
      if RecordPaths(after.successful) == RecordPaths(before.successful) {
        SubseqExtend(RecordPaths(before.successful), EntryPaths(init), item.originalPath);
      } else {
        SubseqExtendBoth(RecordPaths(before.successful), EntryPaths(init), item.originalPath);
      }
      if EntryPaths(after.failed) == EntryPaths(before.failed) {
        SubseqExtend(EntryPaths(before.failed), EntryPaths(init), item.originalPath);
      } else {
        SubseqExtendBoth(EntryPaths(before.failed), EntryPaths(init), item.originalPath);
      }
    }
  }

  /** One step adds the entry's own path to at most the end of each list. */
  lemma StepKeepsOrder(dirPath: Path, dryRun: bool, st: Progress, item: ScanEntry)
    ensures var after := PerformStep(dirPath, dryRun, st, item);
      && (RecordPaths(after.successful) == RecordPaths(st.successful)
          || RecordPaths(after.successful) == RecordPaths(st.successful) + [item.originalPath])
      && (EntryPaths(after.failed) == EntryPaths(st.failed)
          || EntryPaths(after.failed) == EntryPaths(st.failed) + [item.originalPath])
  {
    var after := PerformStep(dirPath, dryRun, st, item);
    if after.successful != st.successful {
      var r :| after.successful == st.successful + [r] && r.item == item;
      RecordPathsSnoc(st.successful, r);
    }
    if after.failed != st.failed {
      var e :| after.failed == st.failed + [e] && e.originalPath == item.originalPath;
      EntryPathsSnoc(st.failed, e);
    }
  }

  lemma RecordPathsSnoc(records: seq<RenameRecord>, r: RenameRecord)
    ensures RecordPaths(records + [r]) == RecordPaths(records) + [r.item.originalPath]
  {
    assert (records + [r])[..|records|] == records;
  }

  lemma EntryPathsSnoc(entries: seq<ScanEntry>, e: ScanEntry)
    ensures EntryPaths(entries + [e]) == EntryPaths(entries) + [e.originalPath]
  {
    assert (entries + [e])[..|entries|] == entries;
  }

  /** Every record names the target `join(dirPath, suggestedName)` of its
      entry, with status `dry_run` exactly on a dry run. */
  lemma {:induction false} PerformTargets(t: Tree, dirPath: Path, dryRun: bool, items: seq<ScanEntry>)
    ensures var s := PerformOn(t, dirPath, dryRun, items).successful;
      forall i :: 0 <= i < |s| ==>
        && s[i].newPath == TargetOf(dirPath, s[i].item)
        && IsEligible(s[i].item)
        && (s[i].status == DryRun <==> dryRun)
  {
    if items != [] {
      PerformTargets(t, dirPath, dryRun, items[..|items| - 1]);
    }
  }

  /** The records a dry run produces for the entries it accepts. */
  function DryRunRecords(dirPath: Path, entries: seq<ScanEntry>): seq<RenameRecord>
  {
    if entries == [] then []
    else
      var e := entries[|entries| - 1];
      DryRunRecords(dirPath, entries[..|entries| - 1]) + [RenameRecord(e, TargetOf(dirPath, e), DryRun)]
  }

  /** A dry run leaves the filesystem as it was, reports every entry to be
      renamed as successful, in order, and every entry carrying an error as
      failed. */
  lemma {:induction false} DryRunOutcome(t: Tree, dirPath: Path, items: seq<ScanEntry>)
    ensures PerformOn(t, dirPath, true, items)
      == Progress(t, DryRunRecords(dirPath, Filter(items, IsEligible)), Filter(items, CarriesError))
  {
    if items != [] {
      var init, item := items[..|items| - 1], items[|items| - 1];
      DryRunOutcome(t, dirPath, init);
      var accepted := Filter(init, IsEligible);
      var before := PerformOn(t, dirPath, true, init);
      assert PerformOn(t, dirPath, true, items) == PerformStep(dirPath, true, before, item);
      assert Filter(items, CarriesError) == Filter(init, CarriesError) + (if CarriesError(item) then [item] else []);
      if IsEligible(item) {
        assert Filter(items, IsEligible) == accepted + [item];
        assert (accepted + [item])[..|accepted|] == accepted;
      } else {
        assert Filter(items, IsEligible) == accepted;
      }
    }
  }

  /** Scan entries carry no error, so a dry run over a scan fails nothing. */
  lemma DryRunOfScanFailsNothing(t: Tree, dirPath: Path, items: seq<ScanEntry>)
    requires forall i :: 0 <= i < |items| ==> items[i].error.None?
    ensures PerformOn(t, dirPath, true, items).failed == []
  {
    DryRunOutcome(t, dirPath, items);
    FilterNone(items, CarriesError);
  }

  /** The target is not checked for existence: when an entry's target is
      another regular file, the rename goes ahead, the entry is reported
      as renamed, and the file that was there is gone. */
  lemma PerformOverwrites(dirPath: Path, st: Progress, item: ScanEntry)
    requires IsEligible(item)
    requires var target := TargetOf(dirPath, item);
      && item.originalPath in st.tree && target in st.tree && item.originalPath != target
      && st.tree[item.originalPath].kind == RegularFile && st.tree[target].kind == RegularFile
    ensures var after := PerformStep(dirPath, false, st, item);
      && after.successful == st.successful + [RenameRecord(item, TargetOf(dirPath, item), Renamed)]
      && after.failed == st.failed
      && |after.tree.Keys| == |st.tree.Keys| - 1
      && after.tree[TargetOf(dirPath, item)] == st.tree[item.originalPath]
  {
    RenameOverwrites(st.tree, item.originalPath, TargetOf(dirPath, item));
  }

  // ------------------------------------------------------ renameSingleFile

  /** What `renameSingleFile` resolves to; it never rejects. */
  datatype SingleOutcome = Moved(newPath: Path) | NotMoved(error: string)

  /** `path.join(path.dirname(filePath), newName)`. */
  function SingleTarget(filePath: Path, newName: string): Path
  {
    Join(DirName(filePath), newName)
  }

  /** The outcome of `renameSingleFile(filePath, newName)` on `t`. */
  function RenameSingle(t: Tree, filePath: Path, newName: string): (r: SingleOutcome)
    ensures r.Moved? <==> RenameIn(t, filePath, SingleTarget(filePath, newName)).Ok?
    ensures r.Moved? ==> r.newPath == SingleTarget(filePath, newName)
  {
    var newPath := SingleTarget(filePath, newName);
    match RenameIn(t, filePath, newPath)
    case Ok(_) => Moved(newPath)
    case Err(e) => NotMoved(RenameMessage(e, filePath, newPath))
  }

  /** `renameSingleFile(filePath, newName)`. */
  method RenameSingleFile(fs: FileSystem, filePath: Path, newName: string) returns (r: SingleOutcome)
    modifies fs
    ensures r == RenameSingle(old(fs.tree), filePath, newName)
    ensures r.Moved? ==> fs.tree == RenameIn(old(fs.tree), filePath, r.newPath).value
    ensures r.NotMoved? ==> fs.tree == old(fs.tree)
  {
    var newPath := SingleTarget(filePath, newName);
    var err := fs.Rename(filePath, newPath);
    if err.None? {
      r := Moved(newPath);
    } else {
      r := NotMoved(RenameMessage(err.value, filePath, newPath));
    }
  }

  /** A file is only ever moved within its own directory, under the new
      name; a file that exists is moved whenever the new name is free. */
  lemma RenameSingleStaysInDirectory(t: Tree, filePath: Path, newName: string)
    requires IsNormalDir(DirName(filePath))
    requires newName != "" && NoSlash(newName)
    ensures var r := RenameSingle(t, filePath, newName);
      && (r.Moved? ==> DirName(r.newPath) == DirName(filePath) && BaseName(r.newPath) == newName)
      && (filePath in t && SingleTarget(filePath, newName) !in t ==> r.Moved?)
  {
    JoinParts(DirName(filePath), newName);
  }
}
