/**
 * The converter's file list: each supplied file becomes an entry that is parsed
 * (Parsing, then Ready or Error), can be removed, and can be converted (Converting,
 * then Success or Error), alone or together with every other convertible entry.
 * The list is the state of a `Converter` object; every value the list takes is
 * recorded in its `history`, just as each `setFiles` call renders a new list.
 */
module LottieConverter {
  import opened Wrappers
  import opened Lottie
  import opened Types
  import opened ConversionService
  import Lists

  const NotAvailableMessage := "File data not available for conversion."

  /** The message `convertToTGS` rejects with when serialising or compressing throws. */
  const ConversionFailedMessage := "Failed during TGS conversion process."

  /**
   * A `Partial<LottieFile>` as `updateFileStatus` receives it: each field is either
   * left out (`None`) or given a new value, which for the nullable fields may be null.
   */
  datatype Patch = Patch(
    status: Option<FileStatus>,
    lottieData: Option<Option<Document>>,
    metadata: Option<Option<LottieMetadata>>,
    errorMessage: Option<Option<string>>)

  /** A converted document handed to the download, under its file name. */
  datatype Download = Download(filename: string, tgs: Document)

  /** The spread `{ ...f, ...patch }`: the patched fields are overwritten, the others kept. */
  function ApplyPatch(f: LottieFile, p: Patch): (g: LottieFile)
    ensures g.id == f.id && g.originalFile == f.originalFile
    ensures p.status.Some? ==> g.status == p.status.value
    ensures p.status.None? ==> g.status == f.status
    ensures p.lottieData.Some? ==> g.lottieData == p.lottieData.value
    ensures p.lottieData.None? ==> g.lottieData == f.lottieData
    ensures p.metadata.Some? ==> g.metadata == p.metadata.value
    ensures p.metadata.None? ==> g.metadata == f.metadata
    ensures p.errorMessage.Some? ==> g.errorMessage == p.errorMessage.value
    ensures p.errorMessage.None? ==> g.errorMessage == f.errorMessage
  {
    f.(status := if p.status.Some? then p.status.value else f.status,
       lottieData := if p.lottieData.Some? then p.lottieData.value else f.lottieData,
       metadata := if p.metadata.Some? then p.metadata.value else f.metadata,
       errorMessage := if p.errorMessage.Some? then p.errorMessage.value else f.errorMessage)
  }

  function ErrorPatch(message: string): Patch {
    Patch(Some(Error), None, None, Some(Some(message)))
  }

  const ConvertingPatch := Patch(Some(Converting), None, None, Some(None))
  const SuccessPatch := Patch(Some(Success), None, None, None)

  function IdOf(f: LottieFile): string { f.id }

  // ---------------------------------------------------------------------------
  // List transforms
  // ---------------------------------------------------------------------------

  /** `files.map(f => f.id === id ? { ...f, ...patch } : f)`. */
  function UpdateById(files: seq<LottieFile>, id: string, patch: Patch): (r: seq<LottieFile>)
    ensures |r| == |files|
    ensures forall k {:trigger r[k]} :: 0 <= k < |files| ==>
      r[k] == if files[k].id == id then ApplyPatch(files[k], patch) else files[k]
    ensures forall k {:trigger r[k]} :: 0 <= k < |files| ==> r[k].id == files[k].id
    decreases |files|
  {
    if files == [] then []
    else [if files[0].id == id then ApplyPatch(files[0], patch) else files[0]] +
         UpdateById(files[1..], id, patch)
  }

  /** An update for an id that no entry has leaves the list as it is. */
  lemma UpdateMissingId(files: seq<LottieFile>, id: string, patch: Patch)
    requires forall f :: f in files ==> f.id != id
    ensures UpdateById(files, id, patch) == files
  {
    var r := UpdateById(files, id, patch);
    forall k | 0 <= k < |files| ensures r[k] == files[k] {
      assert files[k] in files;
    }
  }

  /** Two updates of one id act as one update whose later fields win. */
  lemma UpdateTwice(files: seq<LottieFile>, id: string, p: Patch, q: Patch)
    ensures UpdateById(UpdateById(files, id, p), id, q) == UpdateById(files, id, Then(p, q))
  {
    var a := UpdateById(UpdateById(files, id, p), id, q);
    var b := UpdateById(files, id, Then(p, q));
    forall k | 0 <= k < |files| ensures a[k] == b[k] {
      if files[k].id == id {
        PatchThen(files[k], p, q);
      }
    }
  }

  /** The patch that overwrites what `p` overwrites and then what `q` overwrites. */
  function Then(p: Patch, q: Patch): Patch {
    Patch(if q.status.Some? then q.status else p.status,
          if q.lottieData.Some? then q.lottieData else p.lottieData,
          if q.metadata.Some? then q.metadata else p.metadata,
          if q.errorMessage.Some? then q.errorMessage else p.errorMessage)
  }

  lemma PatchThen(f: LottieFile, p: Patch, q: Patch)
    ensures ApplyPatch(ApplyPatch(f, p), q) == ApplyPatch(f, Then(p, q))
  {
  }

  /** The test `f => f.id !== id`. */
  function DiffersFrom(id: string): LottieFile -> bool {
    (f: LottieFile) => f.id != id
  }

  /** `files.filter(f => f.id !== id)`. */
  function RemoveById(files: seq<LottieFile>, id: string): (r: seq<LottieFile>)
    ensures forall f :: f in r <==> f in files && f.id != id
    ensures |r| <= |files|
  {
    Lists.Filter(files, DiffersFrom(id))
  }

  /**
   * Removal keeps the order of what stays: it distributes over concatenation and a
   * single entry stays exactly when its id differs.
   */
  lemma RemoveByIdKeepsOrder(a: seq<LottieFile>, b: seq<LottieFile>, f: LottieFile, id: string)
    ensures RemoveById(a + b, id) == RemoveById(a, id) + RemoveById(b, id)
    ensures RemoveById([f], id) == if f.id == id then [] else [f]
  {
    Lists.FilterConcat(a, b, DiffersFrom(id));
    assert [f][1..] == [];
  }

  /** Removing an id that no entry has changes nothing, and removing twice is removing once. */
  lemma RemoveByIdIdempotent(files: seq<LottieFile>, id: string)
    ensures RemoveById(RemoveById(files, id), id) == RemoveById(files, id)
    ensures (forall f :: f in files ==> f.id != id) ==> RemoveById(files, id) == files
  {
    Lists.FilterIdempotent(files, DiffersFrom(id));
    if forall f :: f in files ==> f.id != id {
      Lists.FilterKeepsAll(files, DiffersFrom(id));
    }
  }

  /** The first entry with the given id, as `files.find(f => f.id === id)`. */
  function FindById(files: seq<LottieFile>, id: string): (r: Option<LottieFile>)
    ensures r.None? <==> forall f :: f in files ==> f.id != id
    ensures r.Some? ==> r.value in files && r.value.id == id
    ensures r.Some? ==> exists k :: (0 <= k < |files| && files[k] == r.value &&
      forall j :: 0 <= j < k ==> files[j].id != id)
    decreases |files|
  {
    if files == [] then None
    else if files[0].id == id then Some(files[0])
    else
      var r := FindById(files[1..], id);
      assert r.Some? ==> exists k :: (0 <= k < |files| && files[k] == r.value &&
        forall j :: 0 <= j < k ==> files[j].id != id) by {
        if r.Some? {
          var k :| 0 <= k < |files[1..]| && files[1..][k] == r.value &&
            forall j :: 0 <= j < k ==> files[1..][j].id != id;
          assert files[k + 1] == r.value;
          forall j | 0 <= j < k + 1 ensures files[j].id != id {
            if j > 0 { assert files[j] == files[1..][j - 1]; }
          }
        }
      }
      r
  }

  /** With distinct ids, the entry found for an id is the one entry that has it. */
  lemma FindUnique(files: seq<LottieFile>, k: nat)
    requires Lists.UniqueBy(files, IdOf) && k < |files|
    ensures FindById(files, files[k].id) == Some(files[k])
  {
    var r := FindById(files, files[k].id);
    assert files[k] in files;
    assert forall j :: 0 <= j < |files| && j != k ==> IdOf(files[j]) != IdOf(files[k]) by {
      forall j | 0 <= j < |files| && j != k ensures IdOf(files[j]) != IdOf(files[k]) {
        if j < k {
          assert IdOf(files[j]) != IdOf(files[k]);
        } else {
          assert IdOf(files[k]) != IdOf(files[j]);
        }
      }
    }
  }

  /** `convertAll` converts the entries that are Ready, and those in Error that still hold data. */
  predicate Convertible(f: LottieFile) {
    f.status == Ready || (f.status == Error && f.lottieData.Some?)
  }

  /** `files.filter(f => f.status === 'Ready' || (f.status === 'Error' && f.lottieData))`. */
  function ConvertAllSelection(files: seq<LottieFile>): (r: seq<LottieFile>)
    ensures forall f :: f in r <==> f in files && Convertible(f)
    ensures Lists.UniqueBy(files, IdOf) ==> Lists.UniqueBy(r, IdOf)
  {
    Lists.FilterUniqueBy(files, Convertible, IdOf);
    Lists.Filter(files, Convertible)
  }

  /** The selection keeps list order: it distributes over concatenation. */
  lemma SelectionKeepsOrder(a: seq<LottieFile>, b: seq<LottieFile>)
    ensures ConvertAllSelection(a + b) == ConvertAllSelection(a) + ConvertAllSelection(b)
  {
    Lists.FilterConcat(a, b, Convertible);
  }

  // ---------------------------------------------------------------------------
  // The output file name
  // ---------------------------------------------------------------------------

  /** `s.lastIndexOf(c)`: the last position of `c` in `s`, or -1. */
  function LastIndexOf(s: string, c: char): (r: int)
    ensures -1 <= r < |s|
    ensures r >= 0 ==> s[r] == c
    ensures forall j :: r < j < |s| ==> s[j] != c
    decreases |s|
  {
    if s == [] then -1
    else if s[|s| - 1] == c then |s| - 1
    else LastIndexOf(s[..|s| - 1], c)
  }

  /** `s.substring(0, end)`: a negative end counts as 0. */
  function Substring(s: string, end: int): (r: string)
    requires end <= |s|
    ensures r <= s
    ensures |r| == if end < 0 then 0 else end
  {
    s[..if end < 0 then 0 else end]
  }

  /** `${name.substring(0, name.lastIndexOf('.')) || name}.tgs`. */
  function TgsFileName(name: string): (r: string)
    ensures |r| >= 4 && r[|r| - 4..] == ".tgs"
    ensures var k := LastIndexOf(name, '.');
      r[..|r| - 4] == if k > 0 then name[..k] else name
  {
    var base := Substring(name, LastIndexOf(name, '.'));
    (if base != "" then base else name) + ".tgs"
  }

  /** The last extension is replaced by `.tgs`: "a.b.json" becomes "a.b.tgs". */
  lemma StripsLastExtension(stem: string, ext: string)
    requires stem != ""
    requires forall j :: 0 <= j < |ext| ==> ext[j] != '.'
    ensures TgsFileName(stem + "." + ext) == stem + ".tgs"
  {
    var s := stem + "." + ext;
    var k := LastIndexOf(s, '.');
    assert s[|stem|] == '.';
    assert forall j :: |stem| < j < |s| ==> s[j] == ext[j - |stem| - 1];
    assert k == |stem|;
    assert s[..k] == stem;
  }

  /** A name without a dot keeps all of it: "x" becomes "x.tgs". */
  lemma KeepsNameWithoutDot(name: string)
    requires forall j :: 0 <= j < |name| ==> name[j] != '.'
    ensures TgsFileName(name) == name + ".tgs"
  {
  }

  /** A name whose only dot leads keeps all of it: ".json" becomes ".json.tgs". */
  lemma KeepsNameWithLeadingDot(ext: string)
    requires forall j :: 0 <= j < |ext| ==> ext[j] != '.'
    ensures TgsFileName("." + ext) == "." + ext + ".tgs"
  {
    var s := "." + ext;
    assert forall j :: 0 < j < |s| ==> s[j] == ext[j - 1];
  }

  lemma FileNameExamples()
    ensures TgsFileName("a.b.json") == "a.b.tgs"
    ensures TgsFileName("x") == "x.tgs"
    ensures TgsFileName(".json") == ".json.tgs"
  {
    StripsLastExtension("a.b", "json");
    assert "a.b" + "." + "json" == "a.b.json";
    KeepsNameWithoutDot("x");
    KeepsNameWithLeadingDot("json");
    assert "." + "json" == ".json";
  }

  // ---------------------------------------------------------------------------
  // Entries and their life cycle
  // ---------------------------------------------------------------------------

  /** The entry `addFiles` appends before parsing. */
  function Preliminary(file: SourceFile, id: string): (f: LottieFile)
    ensures f.id == id && f.originalFile == file && f.status == Parsing
    ensures f.lottieData.None? && f.metadata.None? && f.errorMessage.None?
  {
    LottieFile(id, file, None, Parsing, None, None)
  }

  /** The update that ends parsing: Ready with the document and metadata, or Error with the message. */
  function ParsePatch(file: SourceFile): (p: Patch)
    ensures p.status == Some(if ParseLottieFile(file).Ok? then Ready else Error)
    ensures ParseLottieFile(file).Ok? ==>
      && p.lottieData == Some(Some(ParseLottieFile(file).value.lottieData))
      && p.metadata == Some(Some(ParseLottieFile(file).value.metadata))
      && p.errorMessage.None?
    ensures ParseLottieFile(file).Err? ==>
      p.errorMessage == Some(Some(ParseLottieFile(file).error)) && p.lottieData.None? && p.metadata.None?
  {
    match ParseLottieFile(file)
    case Ok(parsed) => Patch(Some(Ready), Some(Some(parsed.lottieData)), Some(Some(parsed.metadata)), None)
    case Err(message) => ErrorPatch(message)
  }

  /** The entry once parsing has ended. */
  function SettledEntry(file: SourceFile, id: string): (f: LottieFile)
    ensures f.id == id && f.originalFile == file
  {
    ApplyPatch(Preliminary(file, id), ParsePatch(file))
  }

  /**
   * What holds of every entry between operations: parsing and converting have
   * ended, an entry is in Error exactly when it carries a message, only an entry in
   * Error may lack data, and data and metadata are what parsing its file gave.
   */
  predicate WellFormedEntry(f: LottieFile) {
    && (f.status == Ready || f.status == Success || f.status == Error)
    && (f.status == Error <==> f.errorMessage.Some?)
    && (f.status != Error ==> f.lottieData.Some?)
    && (f.lottieData.Some? <==> f.metadata.Some?)
    && (f.lottieData.Some? ==>
          ParseLottieFile(f.originalFile) == Ok(Parsed(f.lottieData.value, f.metadata.value)))
  }

  /**
   * A parsed file's entry is Ready with the document and its metadata and no
   * message; a rejected file's entry is in Error with the rejection message and
   * no data or metadata. Either way the entry is well formed.
   */
  lemma SettledEntryShape(file: SourceFile, id: string)
    ensures var f := SettledEntry(file, id);
      && (ParseLottieFile(file).Ok? ==>
            f.status == Ready && f.lottieData == Some(ParseLottieFile(file).value.lottieData) &&
            f.metadata == Some(ParseLottieFile(file).value.metadata) && f.errorMessage.None?)
      && (ParseLottieFile(file).Err? ==>
            f.status == Error && f.errorMessage == Some(ParseLottieFile(file).error) &&
            f.lottieData.None? && f.metadata.None?)
      && WellFormedEntry(f)
  {
  }

  /** A list the component can show: ids are distinct and every entry is well formed. */
  ghost predicate ValidList(files: seq<LottieFile>) {
    Lists.UniqueBy(files, IdOf) && forall f :: f in files ==> WellFormedEntry(f)
  }

  /** The entries `addFiles` leaves behind, one per file, in order. */
  function SettleAll(newFiles: seq<SourceFile>, ids: seq<string>): (r: seq<LottieFile>)
    requires |ids| == |newFiles|
    ensures |r| == |newFiles|
    ensures forall k {:trigger r[k]} :: 0 <= k < |r| ==> r[k] == SettledEntry(newFiles[k], ids[k])
    decreases |newFiles|
  {
    if newFiles == [] then []
    else
      var n := |newFiles| - 1;
      SettleAll(newFiles[..n], ids[..n]) + [SettledEntry(newFiles[n], ids[n])]
  }

  /** The lists `addFiles` renders on top of `base`: for each file, first with its preliminary entry, then with the settled one. */
  ghost function AddTrace(base: seq<LottieFile>, newFiles: seq<SourceFile>, ids: seq<string>): (t: seq<seq<LottieFile>>)
    requires |ids| == |newFiles|
    ensures |t| == 2 * |newFiles|
    decreases |newFiles|
  {
    if newFiles == [] then []
    else
      var n := |newFiles| - 1;
      var before := base + SettleAll(newFiles[..n], ids[..n]);
      AddTrace(base, newFiles[..n], ids[..n]) +
        [before + [Preliminary(newFiles[n], ids[n])], before + [SettledEntry(newFiles[n], ids[n])]]
  }

  /** `AddTrace` grows by the two lists of the last file. */
  lemma AddTraceUnfold(base: seq<LottieFile>, newFiles: seq<SourceFile>, ids: seq<string>)
    requires |ids| == |newFiles| && |newFiles| > 0
    ensures var n := |newFiles| - 1;
      var before := base + SettleAll(newFiles[..n], ids[..n]);
      AddTrace(base, newFiles, ids) == AddTrace(base, newFiles[..n], ids[..n]) +
        [before + [Preliminary(newFiles[n], ids[n])], before + [SettledEntry(newFiles[n], ids[n])]]
  {
  }

  /** Rendering one more file leaves the lists already rendered as they were. */
  lemma AddTraceGrow(base: seq<LottieFile>, newFiles: seq<SourceFile>, ids: seq<string>, m: nat, j: nat)
    requires |ids| == |newFiles| && m < |newFiles| && j < 2 * m
    ensures AddTrace(base, newFiles[..m + 1], ids[..m + 1])[j] == AddTrace(base, newFiles[..m], ids[..m])[j]
  {
    var files, keys := newFiles[..m + 1], ids[..m + 1];
    AddTraceUnfold(base, files, keys);
    assert files[..m] == newFiles[..m] && keys[..m] == ids[..m];
    assert |AddTrace(base, newFiles[..m], ids[..m])| == 2 * m;
  }

  /** The lists rendered for the first `m` files do not depend on the files after them. */
  lemma {:induction false} AddTracePoint(base: seq<LottieFile>, newFiles: seq<SourceFile>, ids: seq<string>,
                                         m: nat, j: nat)
    requires |ids| == |newFiles| && m <= |newFiles| && j < 2 * m
    ensures AddTrace(base, newFiles, ids)[j] == AddTrace(base, newFiles[..m], ids[..m])[j]
    decreases |newFiles| - m
  {
    if m < |newFiles| {
      AddTracePoint(base, newFiles, ids, m + 1, j);
      AddTraceGrow(base, newFiles, ids, m, j);
    } else {
      assert newFiles[..m] == newFiles && ids[..m] == ids;
    }
  }

  /** The last two lists rendered for the first `k + 1` files are those of the `k`-th file. */
  lemma AddTraceLast(base: seq<LottieFile>, newFiles: seq<SourceFile>, ids: seq<string>, k: nat)
    requires |ids| == |newFiles| && k < |newFiles|
    ensures var t := AddTrace(base, newFiles[..k + 1], ids[..k + 1]);
      && t[2 * k] == base + SettleAll(newFiles[..k], ids[..k]) + [Preliminary(newFiles[k], ids[k])]
      && t[2 * k + 1] == base + SettleAll(newFiles[..k + 1], ids[..k + 1])
  {
    var files, keys := newFiles[..k + 1], ids[..k + 1];
    AddTraceUnfold(base, files, keys);
    assert |AddTrace(base, files[..k], keys[..k])| == 2 * k;
    assert files[..k] == newFiles[..k] && keys[..k] == ids[..k];
    assert files[k] == newFiles[k] && keys[k] == ids[k];
  }

  /**
   * For the `k`-th file, `addFiles` renders the entries of the files before it with
   * its preliminary entry appended, and then with its settled entry in that place.
   */
  lemma AddTraceAt(base: seq<LottieFile>, newFiles: seq<SourceFile>, ids: seq<string>, k: nat)
    requires |ids| == |newFiles| && k < |newFiles|
    ensures var t := AddTrace(base, newFiles, ids);
      && t[2 * k] == base + SettleAll(newFiles[..k], ids[..k]) + [Preliminary(newFiles[k], ids[k])]
      && t[2 * k + 1] == base + SettleAll(newFiles[..k + 1], ids[..k + 1])
  {
    AddTracePoint(base, newFiles, ids, k + 1, 2 * k);
    AddTracePoint(base, newFiles, ids, k + 1, 2 * k + 1);
    AddTraceLast(base, newFiles, ids, k);
  }

  /**
   * Each file first shows as a Parsing entry at the end of the list, and the next
   * list shows it at the same place with parsing ended.
   */
  lemma ParsingShownFirst(base: seq<LottieFile>, newFiles: seq<SourceFile>, ids: seq<string>, k: nat)
    requires |ids| == |newFiles| && k < |newFiles|
    ensures var t := AddTrace(base, newFiles, ids);
      && |t[2 * k]| == |t[2 * k + 1]| == |base| + k + 1
      && t[2 * k][|base| + k] == Preliminary(newFiles[k], ids[k])
      && t[2 * k][|base| + k].status == Parsing
      && t[2 * k + 1][|base| + k] == SettledEntry(newFiles[k], ids[k])
      && t[2 * k + 1][|base| + k].status != Parsing
  {
    AddTraceAt(base, newFiles, ids, k);
    var settled := SettleAll(newFiles[..k + 1], ids[..k + 1]);
    assert settled[k] == SettledEntry(newFiles[k], ids[k]);
  }

  /** An entry after a conversion attempt: first Converting, then Success or Error. */
  function Converted(f: LottieFile, fails: bool): (g: LottieFile)
    ensures g.id == f.id && g.originalFile == f.originalFile
    ensures g.lottieData == f.lottieData && g.metadata == f.metadata
    ensures fails ==> g.status == Error && g.errorMessage == Some(ConversionFailedMessage)
    ensures !fails ==> g.status == Success && g.errorMessage.None?
  {
    ApplyPatch(ApplyPatch(f, ConvertingPatch), if fails then ErrorPatch(ConversionFailedMessage) else SuccessPatch)
  }

  /** Whether converting the entry yields a download: its conversion does not fail and it holds a validated document. */
  predicate Succeeds(failing: set<string>, f: LottieFile) {
    f.id !in failing && f.lottieData.Some? && HasRequiredFields(f.lottieData.value)
  }

  /** The download of an entry whose conversion succeeds: the converted document under the output file name. */
  function DownloadFile(f: LottieFile): Download
    requires f.lottieData.Some? && HasRequiredFields(f.lottieData.value)
  {
    Download(TgsFileName(f.originalFile.name), TgsOf(f.lottieData.value))
  }

  /** The download `convertFile` triggers for a selected entry: none when its conversion fails. */
  function DownloadOf(f: LottieFile, failing: set<string>): (r: seq<Download>)
    ensures |r| <= 1
    ensures |r| == 1 <==> Succeeds(failing, f)
    ensures |r| == 1 ==> r[0] == DownloadFile(f)
  {
    if f.id in failing || f.lottieData.None? || !HasRequiredFields(f.lottieData.value) then []
    else [DownloadFile(f)]
  }

  /** The downloads `convertAll` triggers for the selected entries, in order: one per conversion that succeeds. */
  function DownloadsFor(selected: seq<LottieFile>, failing: set<string>): (r: seq<Download>)
    ensures |r| <= |selected|
    decreases |selected|
  {
    if selected == [] then []
    else
      var n := |selected| - 1;
      DownloadsFor(selected[..n], failing) + DownloadOf(selected[n], failing)
  }

  /** Every download is the converted document of a selected entry that did not fail, named after its file. */
  lemma {:induction false} DownloadsFromSelection(selected: seq<LottieFile>, failing: set<string>)
    ensures forall x :: x in DownloadsFor(selected, failing) ==> exists f :: (f in selected && f.id !in failing &&
      f.lottieData.Some? && HasRequiredFields(f.lottieData.value) &&
      x == DownloadFile(f))
    decreases |selected|
  {
    if selected != [] {
      var n := |selected| - 1;
      DownloadsFromSelection(selected[..n], failing);
      assert forall g :: g in selected[..n] ==> g in selected;
      assert selected[n] in selected;
    }
  }

  /** The test `Succeeds(failing, _)` as a function value, for filtering. */
  function SucceedsIn(failing: set<string>): LottieFile -> bool {
    (f: LottieFile) => Succeeds(failing, f)
  }

  /** The downloads are those of the entries `kept`, one each and in order, and each of them succeeds. */
  ghost predicate DownloadsMatch(failing: set<string>, downloads: seq<Download>, kept: seq<LottieFile>) {
    && |downloads| == |kept|
    && forall k :: 0 <= k < |kept| ==>
         Succeeds(failing, kept[k]) && downloads[k] == DownloadFile(kept[k])
  }

  /** One more entry adds its download exactly when it is kept. */
  lemma DownloadsMatchAppend(failing: set<string>, downloads: seq<Download>, kept: seq<LottieFile>, last: LottieFile)
    requires DownloadsMatch(failing, downloads, kept)
    ensures DownloadsMatch(failing, downloads + DownloadOf(last, failing),
                           kept + if Succeeds(failing, last) then [last] else [])
  {
  }

  /** The downloads for the first entries match the succeeding entries among them. */
  lemma {:induction false} DownloadsMatchSelection(selected: seq<LottieFile>, failing: set<string>)
    ensures DownloadsMatch(failing, DownloadsFor(selected, failing), Lists.Filter(selected, SucceedsIn(failing)))
    decreases |selected|
  {
    if selected != [] {
      var n := |selected| - 1;
      var pre, last := selected[..n], selected[n];
      DownloadsMatchSelection(pre, failing);
      assert selected == pre + [last];
      Lists.FilterSnoc(pre, last, SucceedsIn(failing));
      DownloadsMatchAppend(failing, DownloadsFor(pre, failing), Lists.Filter(pre, SucceedsIn(failing)), last);
    }
  }

  /**
   * `convertAll` triggers exactly one download per selected entry whose conversion
   * succeeds, in list order: the downloads are those of the succeeding entries.
   */
  lemma DownloadsInOrder(selected: seq<LottieFile>, failing: set<string>)
    ensures var kept := Lists.Filter(selected, SucceedsIn(failing));
      && |DownloadsFor(selected, failing)| == |kept|
      && forall k :: 0 <= k < |kept| ==>
           Succeeds(failing, kept[k]) && DownloadsFor(selected, failing)[k] == DownloadFile(kept[k])
  {
    DownloadsMatchSelection(selected, failing);
  }

  /** Every selected entry whose conversion succeeds has its download among those `convertAll` triggers. */
  lemma SucceedingSelectionDownloaded(selected: seq<LottieFile>, failing: set<string>)
    ensures forall f :: f in selected && Succeeds(failing, f) ==> DownloadFile(f) in DownloadsFor(selected, failing)
  {
    var kept := Lists.Filter(selected, SucceedsIn(failing));
    DownloadsInOrder(selected, failing);
    forall f | f in selected && Succeeds(failing, f) ensures DownloadFile(f) in DownloadsFor(selected, failing) {
      assert f in kept;
      var k :| 0 <= k < |kept| && kept[k] == f;
      assert DownloadsFor(selected, failing)[k] == DownloadFile(f);
    }
  }

  lemma DownloadsForAppend(selected: seq<LottieFile>, i: nat, next: nat, failing: set<string>)
    requires i < |selected| && next == i + 1
    ensures DownloadsFor(selected[..next], failing) == DownloadsFor(selected[..i], failing) + DownloadOf(selected[i], failing)
  {
    assert selected[..next][..i] == selected[..i];
    assert selected[..next][i] == selected[i];
  }

  class Converter {
    /** The file list, as the component renders it. */
    var files: seq<LottieFile>
    /** Every value the list has taken, oldest first. */
    ghost var history: seq<seq<LottieFile>>

    ghost predicate Valid()
      reads this
    {
      && ValidList(files)
      && |history| > 0 && history[|history| - 1] == files
    }

    constructor ()
      ensures Valid() && files == [] && history == [[]]
    {
      files := [];
      history := [[]];
    }

    /** `setFiles(next)`. */
    method SetFiles(next: seq<LottieFile>)
      modifies this
      ensures files == next && history == old(history) + [next]
    {
      files := next;
      history := history + [next];
    }

    /** `updateFileStatus(id, patch)`. */
    method UpdateFileStatus(id: string, patch: Patch)
      modifies this
      ensures files == UpdateById(old(files), id, patch) && history == old(history) + [files]
    {
      SetFiles(UpdateById(files, id, patch));
    }

    /**
     * `addFiles`: for each file in order, append its preliminary entry, parse the
     * file and settle the entry. The ids stand for the generated ones, which are
     * distinct and new.
     */
    method AddFiles(newFiles: seq<SourceFile>, ids: seq<string>)
      requires Valid()
      requires |ids| == |newFiles|
      requires forall k, l :: 0 <= k < l < |ids| ==> ids[k] != ids[l]
      requires forall f, k :: f in files && 0 <= k < |ids| ==> f.id != ids[k]
      modifies this
      ensures Valid()
      ensures files == old(files) + SettleAll(newFiles, ids)
      ensures history == old(history) + AddTrace(old(files), newFiles, ids)
    {
      var i := 0;
      while i < |newFiles|
        invariant 0 <= i <= |newFiles|
        invariant files == old(files) + SettleAll(newFiles[..i], ids[..i])
        invariant history == old(history) + AddTrace(old(files), newFiles[..i], ids[..i])
        invariant Valid()
      {
        var file, id := newFiles[i], ids[i];
        AddStep(old(files), newFiles, ids, i);
        var preliminaryFile := Preliminary(file, id);
        Lists.AppendTwo(old(history), AddTrace(old(files), newFiles[..i], ids[..i]),
                        files + [preliminaryFile], UpdateById(files + [preliminaryFile], id, ParsePatch(file)));
        SetFiles(files + [preliminaryFile]);
        UpdateFileStatus(id, ParsePatch(file));
        i := i + 1;
      }
      assert newFiles[..i] == newFiles && ids[..i] == ids;
    }

    /** `removeFile(id)`. */
    method RemoveFile(id: string)
      requires Valid()
      modifies this
      ensures Valid()
      ensures files == RemoveById(old(files), id) && history == old(history) + [files]
    {
      Lists.FilterUniqueBy(files, DiffersFrom(id), IdOf);
      SetFiles(RemoveById(files, id));
    }

    /** `clearAll()`. */
    method ClearAll()
      requires Valid()
      modifies this
      ensures Valid()
      ensures files == [] && history == old(history) + [[]]
    {
      SetFiles([]);
    }

    /**
     * `convertFile(id)`: an entry that is missing or has no data goes to Error;
     * otherwise it goes to Converting, the document is converted, and the entry goes
     * to Success with a download, or to Error when serialising or compressing fails
     * (`conversionFails`).
     */
    method ConvertFile(id: string, conversionFails: bool) returns (download: Option<Download>)
      requires Valid()
      modifies this
      ensures Valid()
      ensures ConvertFileEffect(old(files), files, id, conversionFails, download)
      ensures if Unavailable(old(files), id) then history == old(history) + [files]
              else history == old(history) + [UpdateById(old(files), id, ConvertingPatch)] + [files]
      ensures old(history) <= history
    {
      var fileToConvert := FindById(files, id);
      if fileToConvert.None? || fileToConvert.value.lottieData.None? {
        NotAvailableStep(files, id, conversionFails);
        UpdateFileStatus(id, ErrorPatch(NotAvailableMessage));
        Lists.PrefixOfAppend(old(history), [files]);
        return None;
      }
      var entry := fileToConvert.value;
      ConvertStep(files, id, conversionFails, entry);
      UpdateFileStatus(id, ConvertingPatch);
      ghost var converting := history;
      Lists.PrefixOfAppend(old(history), [files]);
      var tgsDocument := ConvertToTGS(entry.lottieData.value);
      if conversionFails {
        UpdateFileStatus(id, ErrorPatch(ConversionFailedMessage));
        download := None;
      } else {
        var tgsFilename := TgsFileName(entry.originalFile.name);
        download := Some(Download(tgsFilename, tgsDocument));
        UpdateFileStatus(id, SuccessPatch);
      }
      Lists.PrefixOfAppend(converting, [files]);
      Lists.PrefixTransitive(old(history), converting, history);
    }

    /**
     * `convertAll()`: converts, in list order, every entry that was Ready or in
     * Error with data; `failing` holds the ids whose conversion fails.
     */
    method ConvertAll(failing: set<string>) returns (downloads: seq<Download>)
      requires Valid()
      modifies this
      ensures Valid()
      ensures |files| == |old(files)|
      ensures forall k :: 0 <= k < |files| ==>
        files[k] == if Convertible(old(files)[k]) then Converted(old(files)[k], old(files)[k].id in failing)
                    else old(files)[k]
      ensures downloads == DownloadsFor(ConvertAllSelection(old(files)), failing)
      ensures old(history) <= history
    {
      var filesToConvert := ConvertAllSelection(files);
      SelectionHasData(files);
      downloads := [];
      var i := 0;
      ghost var done: set<string> := {};
      assert filesToConvert[..0] == [];
      while i < |filesToConvert|
        invariant forall f :: f in filesToConvert ==>
          f in old(files) && Convertible(f) && f.lottieData.Some? && HasRequiredFields(f.lottieData.value)
        invariant Valid()
        invariant ConvertAllProgress(old(files), files, filesToConvert, i, done, failing, downloads)
        invariant old(history) <= history
        decreases |filesToConvert| - i
      {
        var file := filesToConvert[i];
        ghost var current, past := files, history;
        var d := ConvertFile(file.id, file.id in failing);
        Lists.PrefixTransitive(old(history), past, history);
        ghost var previous, before, done' := i, downloads, done;
        downloads := downloads + if d.Some? then [d.value] else [];
        done := done + {file.id};
        i := i + 1;
        ConvertAllRound(old(files), current, files, filesToConvert, previous, i, done', failing, before, d);
      }
      ConvertAllFinished(old(files), files, filesToConvert, done, failing, downloads);
    }
  }

  /** Updating an appended entry whose id is new changes only that entry. */
  lemma UpdateLast(before: seq<LottieFile>, last: LottieFile, patch: Patch)
    requires forall f :: f in before ==> f.id != last.id
    ensures UpdateById(before + [last], last.id, patch) == before + [ApplyPatch(last, patch)]
  {
    var s := before + [last];
    var r := UpdateById(s, last.id, patch);
    forall k | 0 <= k < |s| ensures r[k] == (before + [ApplyPatch(last, patch)])[k] {
      if k < |before| {
        assert s[k] == before[k] && before[k] in before;
      }
    }
  }

  lemma AppendUnique(before: seq<LottieFile>, last: LottieFile)
    requires Lists.UniqueBy(before, IdOf)
    requires forall f :: f in before ==> f.id != last.id
    ensures Lists.UniqueBy(before + [last], IdOf)
  {
    var s := before + [last];
    forall i, j | 0 <= i < j < |s| ensures IdOf(s[i]) != IdOf(s[j]) {
      if j == |before| {
        assert s[i] == before[i] && before[i] in before;
      } else {
        assert s[i] == before[i] && s[j] == before[j];
      }
    }
  }

  lemma UpdateKeepsUnique(files: seq<LottieFile>, id: string, patch: Patch)
    requires Lists.UniqueBy(files, IdOf)
    ensures Lists.UniqueBy(UpdateById(files, id, patch), IdOf)
  {
    var r := UpdateById(files, id, patch);
    forall i, j | 0 <= i < j < |r| ensures IdOf(r[i]) != IdOf(r[j]) {
      assert IdOf(files[i]) != IdOf(files[j]);
    }
  }

  /** `cur` is `orig` with the convertible entries whose ids are in `done` converted. */
  ghost predicate ConvertedUpTo(orig: seq<LottieFile>, cur: seq<LottieFile>, done: set<string>, failing: set<string>) {
    && |cur| == |orig|
    && forall k {:trigger cur[k]} :: 0 <= k < |orig| ==>
         cur[k] == if Convertible(orig[k]) && orig[k].id in done then Converted(orig[k], orig[k].id in failing)
                   else orig[k]
  }

  /** The entries of `files` that `convertFile(id)` reports as not available: missing, or without data. */
  predicate Unavailable(files: seq<LottieFile>, id: string)
    ensures (forall f :: f in files ==> f.id != id) ==> Unavailable(files, id)
    ensures !Unavailable(files, id) ==> exists f :: f in files && f.id == id && f.lottieData.Some?
  {
    FindById(files, id).None? || FindById(files, id).value.lottieData.None?
  }

  /**
   * What `convertFile(id)` does to the list and which download it triggers: an
   * unavailable entry goes to Error with no download; otherwise the entry goes to
   * Converting and then to Error when the conversion fails, with no download, or
   * to Success with the converted document named after its file.
   */
  ghost predicate ConvertFileEffect(before: seq<LottieFile>, after: seq<LottieFile>, id: string, fails: bool,
                                    download: Option<Download>)
    requires forall f :: f in before ==> WellFormedEntry(f)
  {
    if Unavailable(before, id) then
      after == UpdateById(before, id, ErrorPatch(NotAvailableMessage)) && download.None?
    else
      var found := FindById(before, id).value;
      assert found in before && WellFormedEntry(found);
      && after == UpdateById(UpdateById(before, id, ConvertingPatch), id,
                             if fails then ErrorPatch(ConversionFailedMessage) else SuccessPatch)
      && download == if fails then None
           else Some(Download(TgsFileName(found.originalFile.name), TgsOf(found.lottieData.value)))
  }

  /**
   * Where `convertAll` stands after its first `i` rounds: the entries selected so
   * far, and only those, are converted, and their downloads are the ones triggered.
   */
  ghost predicate ConvertAllProgress(orig: seq<LottieFile>, cur: seq<LottieFile>, selected: seq<LottieFile>,
                                     i: nat, done: set<string>, failing: set<string>, downloads: seq<Download>)
  {
    && i <= |selected|
    && ConvertedUpTo(orig, cur, done, failing)
    && (forall j :: 0 <= j < i ==> selected[j].id in done)
    && (forall j :: i <= j < |selected| ==> selected[j].id !in done)
    && downloads == DownloadsFor(selected[..i], failing)
  }

  /** One round of `convertAll` moves its progress on by one selected entry. */
  lemma ConvertAllRound(orig: seq<LottieFile>, cur: seq<LottieFile>, after: seq<LottieFile>,
                        selected: seq<LottieFile>, i: nat, next: nat, done: set<string>, failing: set<string>,
                        downloads: seq<Download>, d: Option<Download>)
    requires ValidList(orig) && Lists.UniqueBy(selected, IdOf)
    requires forall f :: f in selected ==>
      f in orig && Convertible(f) && f.lottieData.Some? && HasRequiredFields(f.lottieData.value)
    requires i < |selected| && next == i + 1
    requires ConvertAllProgress(orig, cur, selected, i, done, failing, downloads)
    requires ValidList(cur)
    requires ConvertFileEffect(cur, after, selected[i].id, selected[i].id in failing, d)
    ensures ConvertAllProgress(orig, after, selected, next, done + {selected[i].id}, failing,
                               downloads + if d.Some? then [d.value] else [])
  {
    var file := selected[i];
    ConvertAllStep(orig, cur, selected, i, done, failing);
    assert !Unavailable(cur, file.id);
    assert (if d.Some? then [d.value] else []) == DownloadOf(file, failing);
    DownloadsForAppend(selected, i, next, failing);
    forall j | 0 <= j < next ensures selected[j].id in done + {file.id} {
      if j < i {
        assert selected[j].id in done;
      } else {
        assert j == i;
      }
    }
  }

  /** After the last round every selected entry is converted and every download triggered. */
  lemma ConvertAllFinished(orig: seq<LottieFile>, cur: seq<LottieFile>, selected: seq<LottieFile>,
                           done: set<string>, failing: set<string>, downloads: seq<Download>)
    requires selected == ConvertAllSelection(orig)
    requires ConvertAllProgress(orig, cur, selected, |selected|, done, failing, downloads)
    ensures |cur| == |orig|
    ensures forall k :: 0 <= k < |cur| ==>
      cur[k] == if Convertible(orig[k]) then Converted(orig[k], orig[k].id in failing) else orig[k]
    ensures downloads == DownloadsFor(selected, failing)
  {
    assert selected[..|selected|] == selected;
    forall k | 0 <= k < |cur|
      ensures cur[k] == if Convertible(orig[k]) then Converted(orig[k], orig[k].id in failing) else orig[k]
    {
      if Convertible(orig[k]) {
        assert orig[k] in selected;
        var j :| 0 <= j < |selected| && selected[j] == orig[k];
      }
    }
  }

  /** One round of `convertAll`: the next selected entry is found unchanged and is then converted. */
  lemma ConvertAllStep(orig: seq<LottieFile>, cur: seq<LottieFile>, selected: seq<LottieFile>, i: nat,
                       done: set<string>, failing: set<string>)
    requires Lists.UniqueBy(orig, IdOf) && Lists.UniqueBy(selected, IdOf) && i < |selected|
    requires forall f :: f in selected ==> f in orig && Convertible(f)
    requires ConvertedUpTo(orig, cur, done, failing) && selected[i].id !in done
    ensures var file := selected[i];
      var final := if file.id in failing then ErrorPatch(ConversionFailedMessage) else SuccessPatch;
      && FindById(cur, file.id) == Some(file)
      && ConvertedUpTo(orig, UpdateById(UpdateById(cur, file.id, ConvertingPatch), file.id, final),
                       done + {file.id}, failing)
      && forall j :: i < j < |selected| ==> selected[j].id != file.id
  {
    var file := selected[i];
    assert file in selected;
    var k :| 0 <= k < |orig| && orig[k] == file;
    FoundUnconverted(orig, cur, k, done, failing);
    ConvertedUpToStep(orig, cur, k, done, failing);
    forall j | i < j < |selected| ensures selected[j].id != file.id {
      assert IdOf(selected[i]) != IdOf(selected[j]);
    }
  }

  /** An entry not yet converted is still in the list as it was, and it is the one entry with its id. */
  lemma FoundUnconverted(orig: seq<LottieFile>, cur: seq<LottieFile>, k: nat, done: set<string>, failing: set<string>)
    requires Lists.UniqueBy(orig, IdOf) && ConvertedUpTo(orig, cur, done, failing)
    requires k < |orig| && orig[k].id !in done
    ensures FindById(cur, orig[k].id) == Some(orig[k])
  {
    assert cur[k] == orig[k];
    assert Lists.UniqueBy(cur, IdOf) by {
      forall a, b | 0 <= a < b < |cur| ensures IdOf(cur[a]) != IdOf(cur[b]) {
        assert IdOf(orig[a]) != IdOf(orig[b]);
      }
    }
    FindUnique(cur, k);
  }

  /** Converting the `k`-th entry, found as it was, extends the set of converted entries by its id. */
  lemma ConvertedUpToStep(orig: seq<LottieFile>, cur: seq<LottieFile>, k: nat, done: set<string>, failing: set<string>)
    requires Lists.UniqueBy(orig, IdOf) && ConvertedUpTo(orig, cur, done, failing)
    requires k < |orig| && Convertible(orig[k]) && orig[k].id !in done
    ensures var id := orig[k].id;
      var final := if id in failing then ErrorPatch(ConversionFailedMessage) else SuccessPatch;
      ConvertedUpTo(orig, UpdateById(UpdateById(cur, id, ConvertingPatch), id, final), done + {id}, failing)
  {
    var file := orig[k];
    var final := if file.id in failing then ErrorPatch(ConversionFailedMessage) else SuccessPatch;
    var mid := UpdateById(cur, file.id, ConvertingPatch);
    var next := UpdateById(mid, file.id, final);
    forall m | 0 <= m < |orig|
      ensures next[m] == if Convertible(orig[m]) && orig[m].id in done + {file.id}
                         then Converted(orig[m], orig[m].id in failing)
                         else orig[m]
    {
      if m == k {
        assert mid[k] == ApplyPatch(file, ConvertingPatch);
        assert next[k] == ApplyPatch(mid[k], final);
      } else {
        if m < k {
          assert IdOf(orig[m]) != IdOf(orig[k]);
        } else {
          assert IdOf(orig[k]) != IdOf(orig[m]);
        }
        assert cur[m].id != file.id;
        assert mid[m] == cur[m];
        assert next[m] == cur[m];
      }
    }
  }

  /** Every entry the selection picks from well-formed entries holds a validated document. */
  lemma SelectionHasData(files: seq<LottieFile>)
    requires forall f :: f in files ==> WellFormedEntry(f)
    ensures forall f :: f in ConvertAllSelection(files) ==>
      f.lottieData.Some? && HasRequiredFields(f.lottieData.value)
  {
  }

  /** One round of `addFiles`: the settled entry replaces the preliminary one and the list stays valid. */
  lemma AddStep(base: seq<LottieFile>, newFiles: seq<SourceFile>, ids: seq<string>, i: nat)
    requires |ids| == |newFiles| && i < |newFiles|
    requires forall k, l :: 0 <= k < l < |ids| ==> ids[k] != ids[l]
    requires forall f, k :: f in base && 0 <= k < |ids| ==> f.id != ids[k]
    requires ValidList(base + SettleAll(newFiles[..i], ids[..i]))
    ensures var before := base + SettleAll(newFiles[..i], ids[..i]);
      var next := base + SettleAll(newFiles[..i + 1], ids[..i + 1]);
      && UpdateById(before + [Preliminary(newFiles[i], ids[i])], ids[i], ParsePatch(newFiles[i])) == next
      && AddTrace(base, newFiles[..i + 1], ids[..i + 1]) ==
           AddTrace(base, newFiles[..i], ids[..i]) +
             [before + [Preliminary(newFiles[i], ids[i])], next]
      && ValidList(next)
  {
    var before := base + SettleAll(newFiles[..i], ids[..i]);
    var id := ids[i];
    var settled := SettleAll(newFiles[..i], ids[..i]);
    forall f | f in before ensures f.id != id {
      var k :| 0 <= k < |before| && before[k] == f;
      if k >= |base| {
        assert f == settled[k - |base|];
      } else {
        assert f in base;
      }
    }
    UpdateLast(before, Preliminary(newFiles[i], id), ParsePatch(newFiles[i]));
    AppendUnique(before, SettledEntry(newFiles[i], id));
    SettledEntryShape(newFiles[i], id);
    assert newFiles[..i + 1][..i] == newFiles[..i] && ids[..i + 1][..i] == ids[..i];
    assert before + [SettledEntry(newFiles[i], id)] == base + SettleAll(newFiles[..i + 1], ids[..i + 1]);
  }

  /** Marking a missing entry, or one without data, as Error keeps the list valid and is what `convertFile` does. */
  lemma NotAvailableStep(files: seq<LottieFile>, id: string, fails: bool)
    requires ValidList(files)
    requires FindById(files, id).None? || FindById(files, id).value.lottieData.None?
    ensures var r := UpdateById(files, id, ErrorPatch(NotAvailableMessage));
      && ValidList(r)
      && ConvertFileEffect(files, r, id, fails, None)
  {
    var r := UpdateById(files, id, ErrorPatch(NotAvailableMessage));
    UpdateKeepsUnique(files, id, ErrorPatch(NotAvailableMessage));
    forall f | f in r ensures WellFormedEntry(f) {
      var k :| 0 <= k < |r| && r[k] == f;
      assert files[k] in files;
      if files[k].id == id {
        FindUnique(files, k);
      }
    }
  }

  /**
   * Converting an entry with data, whether it succeeds or fails, keeps the list
   * valid and is what `convertFile` does.
   */
  lemma ConvertStep(files: seq<LottieFile>, id: string, fails: bool, entry: LottieFile)
    requires ValidList(files)
    requires FindById(files, id) == Some(entry) && entry.lottieData.Some?
    ensures HasRequiredFields(entry.lottieData.value)
    ensures var final := if fails then ErrorPatch(ConversionFailedMessage) else SuccessPatch;
      var r := UpdateById(UpdateById(files, id, ConvertingPatch), id, final);
      && ValidList(r)
      && ConvertFileEffect(files, r, id, fails,
           if fails then None
           else Some(DownloadFile(entry)))
  {
    assert entry in files && WellFormedEntry(entry);
    var final := if fails then ErrorPatch(ConversionFailedMessage) else SuccessPatch;
    var mid := UpdateById(files, id, ConvertingPatch);
    var r := UpdateById(mid, id, final);
    UpdateKeepsUnique(files, id, ConvertingPatch);
    UpdateKeepsUnique(mid, id, final);
    forall f | f in r ensures WellFormedEntry(f) {
      var k :| 0 <= k < |r| && r[k] == f;
      assert files[k] in files;
      if files[k].id == id {
        FindUnique(files, k);
        assert r[k] == Converted(files[k], fails);
      }
    }
  }
}
