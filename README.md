# Lottie to TGS converter — a Dafny model

This project models the core of a browser tool that turns Lottie animations
(JSON documents) into Telegram animated stickers (TGS). It covers two parts:

- **The conversion service** (`ConversionService`, in `conversion_service.dfy`).
  `parseLottieFile` checks the file's declared media type, validates the
  document's required fields and derives its metadata. `convertToTGS` rewrites a
  copy of the document into sticker shape:
  - the timeline is capped at three seconds;
  - the original layers move into an appended precomposition asset
    `tgs_wrapper_comp`;
  - one wrapper layer, centred and scaled so that the longer side becomes 512,
    takes their place;
  - the canvas becomes 512 x 512;
  - truthy `expressions` and `markers` are deleted.
- **The converter hook's file list** (`LottieConverter`, in
  `use_lottie_converter.dfy`). This is a `Converter` object holding the list of
  entries. Each entry moves through Parsing → Ready / Error → Converting →
  Success / Error. The object's methods are the hook's operations:
  - `addFiles`, `removeFile` and `clearAll`;
  - `convertFile`, which also triggers a download named by the output file-name rule;
  - `convertAll`.

  The pure list transforms behind them are functions: update by id, remove by
  id, find by id, and the convert-all selection. A ghost `history` records every
  list passed to `setFiles`. This lets the contracts state
  the intermediate states too: a file shows as Parsing before it is settled, and
  an entry shows as Converting before it ends in Success or Error.

Supporting modules:

| file | contents |
|---|---|
| `wrappers.dfy` | `Option` and `Result` |
| `lottie.dfy` | the JSON value, JavaScript truthiness, and the Lottie document record |
| `types.dfy` | the shared records: `FileStatus`, `LottieMetadata`, `LottieFile`, and the supplied file |
| `lists.dfy` | `Array.prototype.filter` on sequences, with its order and uniqueness lemmas, and the append/prefix facts the history uses |

Numbers are exact reals. `Math.round(x)` is `floor(x + 1/2)`.

A document is a record with:

- optional `w`, `h`, `fr`, `ip` and `op`;
- the `layers`;
- optional `assets`, `expressions` and `markers`;
- a map of every other top-level field.

The file's content is `ReadFailure`, `Malformed` or a decoded document. These
cover the reader's error event, `JSON.parse` throwing (or decoding to `null`) and
a decoded value.

### Behaviour of the code worth noting

- A zero frame rate is rejected as a missing property, since `!json.fr` holds
  for 0. There is no separate timing error.
- The wrapper asset is appended without checking for an existing asset with the
  id `tgs_wrapper_comp`. A duplicate id is therefore possible, and no conflict
  error exists.
- A negative frame rate passes validation, since it is truthy. For such a
  document the three-second cap acts as a floor: a duration below three seconds
  becomes three seconds, and a longer one is kept (`ConvertedDuration`).
- A negative canvas size also passes validation. When both sides are negative the
  scale is negative, and the other side can map to more than 512: a -100 x -200 canvas gets a scale of
  -512 percent, so its height maps to 1024. `FitsTarget` therefore bounds the
  other side only for a positive canvas.
- `ip` and `op` only have to be defined: a JSON `null` passes the `=== undefined`
  test. For example `{"w":100,"h":100,"fr":30,"ip":0,"op":null}` is accepted, and
  `(null - 0) / 30` gives a zero duration. The model's numeric fields do not
  represent `null`; see "## Left out".

## Model

| member | source | states |
|---|---|---|
| ConversionService.Round | services/conversionService.ts:26 | `Math.round` gives the integer within one half of its argument |
| ConversionService.Metadata | services/conversionService.ts:23-28 | width and height are the document's `w` and `h`; the frame rate is `fr` rounded to the nearest integer |
| ConversionService.DurationSpansTimeline | services/conversionService.ts:27 | duration times frame rate is the timeline length `op - ip`; for a positive frame rate, the duration exceeds three seconds exactly when the timeline exceeds `3 * fr` frames; for a negative one, the duration is below three seconds exactly then |
| ConversionService.ParseLottieFile | services/conversionService.ts:5-40 | a non-JSON media type is rejected with "File is not a JSON." before the content is looked at; the parse succeeds exactly for a JSON file that decodes to a document with truthy `w`, `h`, `fr` and defined `op`, `ip`; a read failure is rejected with "Failed to read file." and undecodable content with "Failed to parse JSON file."; on success it returns the document unchanged with its metadata, and the frame rate is non-zero; every failure carries one of the four messages |
| ConversionService.MissingFieldRejected | services/conversionService.ts:18-21 | a JSON document with an absent or zero `w`, `h` or `fr`, or an undefined `op` or `ip`, is rejected with the missing-properties message |
| ConversionService.HasRequiredFields | services/conversionService.ts:18 | a document that passes the check has non-zero `w`, `h` and `fr`, so the duration and the wrapper scale never divide by zero |
| ConversionService.ZeroTimingAccepted | services/conversionService.ts:18-28 | any document with truthy `w`, `h` and `fr` and with `ip = 0` and `op = 0` passes validation, with a zero duration |
| ConversionService.Max | services/conversionService.ts:60 | `Math.max` is an upper bound equal to one of its arguments |
| ConversionService.CappedOutPoint | services/conversionService.ts:52-57 | the capped timeline is at most `3 * fr` frames; a timeline within the cap is kept; a longer one ends at `ip + 3 * fr`; the out-point never grows |
| ConversionService.WrapperLayer | services/conversionService.ts:59-93 | the wrapper is a precomposition layer (`ty` 0) showing `tgs_wrapper_comp`, at position (256, 256), anchored at the original canvas centre, scaled equally in x and y by `100 * 512 / max(w, h)`, with opacity 100 and rotation 0, the original size, the given in/out points and `st = ip`, and the remaining literal fields `ddd` 0, `ind` 1, `sr` 1, `ao` 0 and blend mode `bm` 0 |
| ConversionService.ScalePercent | services/conversionService.ts:60-84 | the wrapper scale in percent, `scaleFactor * 100`, times the longer side is 51200 |
| ConversionService.FitsTarget | services/conversionService.ts:60-84 | the wrapper scale maps the longer side to exactly 512; for a positive canvas the other side maps to at most 512, and a square canvas to exactly 512 |
| ConversionService.TgsOf | services/conversionService.ts:46-107 | the document `convertToTGS` serialises passes the validation check again |
| ConversionService.TgsShape | services/conversionService.ts:46-107 | the converted document keeps `fr`, `ip` and every other field, and caps `op`. Its layers are the single wrapper layer. Its assets are the old assets (or none) with one precomposition of the original layers appended. The canvas is 512 x 512. Truthy expressions and markers are removed and falsy ones kept |
| ConversionService.ConvertToTGS | services/conversionService.ts:42-107 | the step-by-step rewrite of the working copy yields the document `TgsShape` describes; the caller's document is a value and stays as it was |
| ConversionService.ConvertedDocumentReparses | services/conversionService.ts:18-99 | the converted document passes validation again, reporting a 512 x 512 canvas and the same rounded frame rate |
| ConversionService.ConvertedDuration | services/conversionService.ts:27-57 | for a positive frame rate, the converted document's duration is the original duration capped at three seconds; for a negative one, a duration below three seconds becomes three seconds and a longer one is kept |
| ConversionService.DurationCapExamples | services/conversionService.ts:52-57 | a 300-frame timeline at 60 fps is cut to 180 frames; a 120-frame one is kept |
| ConversionService.CanvasExample | services/conversionService.ts:83-84 | a 100 x 200 canvas is anchored at (50, 100) and scaled by 256 percent |
| Lists.Filter | hooks/useLottieConverter.ts:39 | the filter holds exactly the elements that pass the test, and is no longer than its input |
| Lists.FilterConcat | hooks/useLottieConverter.ts:79 | filtering distributes over concatenation, so the kept elements stay in their original order |
| Lists.FilterSnoc | hooks/useLottieConverter.ts:79 | filtering a list extended by one element extends the filter by that element exactly when it passes |
| Lists.FilterKeepsAll | hooks/useLottieConverter.ts:39 | a list whose every element passes is its own filter |
| Lists.FilterIdempotent | hooks/useLottieConverter.ts:39 | filtering twice by one test is filtering once |
| Lists.FilterUniqueBy | hooks/useLottieConverter.ts:79 | filtering a list with distinct keys leaves distinct keys |
| LottieConverter.ApplyPatch | hooks/useLottieConverter.ts:10 | the spread keeps the id and the file; each field the patch gives takes the patch's value, and every other field keeps its own |
| LottieConverter.UpdateById | hooks/useLottieConverter.ts:8-12 | the update keeps length, order and ids; each entry with the id gets the patched fields over its own, and every other entry is unchanged |
| LottieConverter.UpdateMissingId | hooks/useLottieConverter.ts:8-12 | an update for an id no entry has leaves the list unchanged |
| LottieConverter.UpdateTwice | hooks/useLottieConverter.ts:8-12 | two updates of one id act as one update in which the later patch's fields win |
| LottieConverter.RemoveById | hooks/useLottieConverter.ts:38-40 | the remaining entries are exactly those whose id differs |
| LottieConverter.RemoveByIdKeepsOrder | hooks/useLottieConverter.ts:38-40 | removal distributes over concatenation and keeps a single entry exactly when its id differs, so the order of what stays is kept |
| LottieConverter.RemoveByIdIdempotent | hooks/useLottieConverter.ts:38-40 | removing twice is removing once; removing an absent id changes nothing |
| LottieConverter.FindById | hooks/useLottieConverter.ts:58 | `find` gives nothing exactly when no entry has the id; otherwise it gives the first entry with that id |
| LottieConverter.FindUnique | hooks/useLottieConverter.ts:58 | with distinct ids, the entry found for an id is the one entry with it |
| LottieConverter.ConvertAllSelection | hooks/useLottieConverter.ts:79 | the selection holds exactly the entries that are Ready, or in Error with data; it keeps ids distinct |
| LottieConverter.Convertible | hooks/useLottieConverter.ts:79 | the selection test: Ready, or in Error with data (stated by `ConvertAllSelection`) |
| LottieConverter.SelectionKeepsOrder | hooks/useLottieConverter.ts:79 | the selection distributes over concatenation, so it keeps list order |
| LottieConverter.LastIndexOf | hooks/useLottieConverter.ts:69 | `lastIndexOf` gives -1 or a position of the character, with no occurrence after it |
| LottieConverter.Substring | hooks/useLottieConverter.ts:69 | `substring(0, end)` is a prefix of the string, of length `end`, or empty for a negative `end` |
| LottieConverter.TgsFileName | hooks/useLottieConverter.ts:69 | the output name ends in `.tgs`; before that it is the name up to its last dot, or the whole name when there is no dot or the dot leads |
| LottieConverter.StripsLastExtension | hooks/useLottieConverter.ts:69 | a name of the form `stem.ext`, with a non-empty stem and no dot in `ext`, becomes `stem.tgs` |
| LottieConverter.KeepsNameWithoutDot | hooks/useLottieConverter.ts:69 | a name without a dot keeps all of it, then `.tgs` is appended |
| LottieConverter.KeepsNameWithLeadingDot | hooks/useLottieConverter.ts:69 | a name whose only dot leads keeps all of it, then `.tgs` is appended |
| LottieConverter.FileNameExamples | hooks/useLottieConverter.ts:69 | "a.b.json" becomes "a.b.tgs", "x" becomes "x.tgs", ".json" becomes ".json.tgs" |
| LottieConverter.Preliminary | hooks/useLottieConverter.ts:17-24 | the appended entry has the generated id and the file, status Parsing, and no data, metadata or message |
| LottieConverter.ParsePatch | hooks/useLottieConverter.ts:29-33 | the update after parsing sets Ready with the parsed document and metadata when the parse succeeds, and Error with the rejection message otherwise |
| LottieConverter.SettledEntry | hooks/useLottieConverter.ts:17-33 | settling keeps the entry's id and file |
| LottieConverter.SettledEntryShape | hooks/useLottieConverter.ts:17-33 | a parsed file's entry is Ready with the parsed document and metadata and without a message; a rejected file's entry is in Error with the rejection message and without data; either entry is well formed |
| LottieConverter.SettleAll | hooks/useLottieConverter.ts:15-35 | `addFiles` leaves one settled entry per file, in the order of the files |
| LottieConverter.AddTraceAt | hooks/useLottieConverter.ts:15-35 | for each file, in order, the component first renders the earlier entries with the file's preliminary entry appended, then with its settled entry in that place |
| LottieConverter.ParsingShownFirst | hooks/useLottieConverter.ts:17-33 | each file first shows as a Parsing entry at the end of the list; the next list shows it in the same place, no longer Parsing |
| LottieConverter.Converted | hooks/useLottieConverter.ts:64-75 | a conversion keeps the entry's id, file, data and metadata; it ends in Error with "Failed during TGS conversion process." when the conversion fails, otherwise in Success without a message |
| LottieConverter.DownloadOf | hooks/useLottieConverter.ts:66-71 | converting a selected entry triggers at most one download; it triggers one exactly when the conversion does not fail and the entry holds a validated document, and that download is the converted document under the output file name |
| LottieConverter.DownloadsFor | hooks/useLottieConverter.ts:80-82 | the downloads of the selected entries, in order, are no more than the entries |
| LottieConverter.DownloadsInOrder | hooks/useLottieConverter.ts:66-82 | `convertAll` triggers exactly one download per selected entry whose conversion succeeds: the downloads, in order, are those of the succeeding selected entries |
| LottieConverter.SucceedingSelectionDownloaded | hooks/useLottieConverter.ts:66-82 | every selected entry whose conversion succeeds has its download among those `convertAll` triggers |
| LottieConverter.DownloadsFromSelection | hooks/useLottieConverter.ts:66-82 | every download `convertAll` triggers is the converted document of a selected entry whose conversion did not fail, named by the file-name rule |
| LottieConverter.Converter.constructor | hooks/useLottieConverter.ts:6 | the list starts empty |
| LottieConverter.Converter.SetFiles | hooks/useLottieConverter.ts:6 | `setFiles` replaces the list and records it in `history` |
| LottieConverter.Converter.UpdateFileStatus | hooks/useLottieConverter.ts:8-12 | the list becomes its update by id, and is rendered |
| LottieConverter.Converter.AddFiles | hooks/useLottieConverter.ts:14-36 | the list gains one settled entry per file, in order; the rendered lists are, file by file, the one with the preliminary entry and the one with the settled entry; ids stay distinct and entries well formed |
| LottieConverter.Converter.RemoveFile | hooks/useLottieConverter.ts:38-40 | the list becomes its removal by id, and stays valid |
| LottieConverter.Converter.ClearAll | hooks/useLottieConverter.ts:42-44 | the list becomes empty |
| LottieConverter.Converter.ConvertFile | hooks/useLottieConverter.ts:57-76 | a missing entry, or one without data, goes to Error with "File data not available for conversion." and nothing is downloaded. Otherwise the entry is first rendered as Converting without a message. It then ends in Error with the conversion message and no download, or in Success with the converted document downloaded under the output file name |
| LottieConverter.Converter.ConvertAll | hooks/useLottieConverter.ts:78-83 | exactly the entries that were Ready, or in Error with data, are converted, each ending in Success or Error; all other entries are unchanged; the downloads are those of the selected entries, in list order |
| LottieConverter.Unavailable | hooks/useLottieConverter.ts:58-59 | an id no entry has is unavailable; an available id has an entry with data |
| LottieConverter.ConvertAllRound | hooks/useLottieConverter.ts:80-82 | one round converts the next selected entry and adds its download, keeping every later entry unconverted |
| LottieConverter.ConvertAllFinished | hooks/useLottieConverter.ts:78-83 | after the last round every selected entry is converted, every other entry is unchanged, and every download has been triggered |
| LottieConverter.FoundUnconverted | hooks/useLottieConverter.ts:57-82 | an entry not yet converted is found in the current list exactly as it was in the list `convertAll` started from |
| LottieConverter.NotAvailableStep | hooks/useLottieConverter.ts:59-62 | marking an unavailable entry as Error keeps ids distinct and entries well formed |
| LottieConverter.ConvertStep | hooks/useLottieConverter.ts:64-75 | converting an entry with data, successfully or not, keeps ids distinct and entries well formed; the entry's data passes validation |
| LottieConverter.AddStep | hooks/useLottieConverter.ts:26-33 | settling the appended preliminary entry replaces it with the settled entry and keeps the list valid |

## Left out

- The `FileReader` and `Promise` plumbing of `parseLottieFile` is not modelled: the `onload`/`onerror` callbacks and the asynchronous resolution. Their outcomes are the `Content` cases: `ReadFailure` for `onerror`, `Malformed` for a throwing `JSON.parse`, and `Decoded` for a parsed document.
- JSON text handling is not modelled. This covers `JSON.parse` of the file, and the `JSON.stringify`/`JSON.parse` deep clone, which drops `undefined` and turns NaN and infinities into `null`. The document is a value, so the caller's document cannot change.
- `JSON.stringify`, `pako.gzip` and the `Blob` at the end of `convertToTGS` are external library calls. The model stops at the rewritten document. Whether these steps throw is the `conversionFails` parameter of `ConvertFile` (the `failing` set of `ConvertAll`).
- IEEE floating point is not modelled. Numbers are exact reals, so NaN, infinities and rounding of the scale factor are absent.
- Truthiness of non-numeric values is modelled only for `expressions` and `markers`. `w`, `h`, `fr`, `ip` and `op` are numbers here, or absent, so the type checks and coercions JavaScript would do on other JSON values are absent. In particular, `ip` and `op` are only tested with `=== undefined`. A `null` or non-numeric `ip` or `op` passes validation and is coerced in `op - ip`, and the numeric model cannot represent it.
- The generated ids (`name-lastModified-random`) are parameters of `AddFiles`. They are required to be distinct and absent from the list, which is what the random suffix is relied on for.
- React's `useState`/`useCallback`, re-rendering and `async` interleaving are left out. Operations run one at a time, and every `setFiles` call is one list in `history`; React may batch several such calls into one render, which the model does not distinguish.
- The closure by which `convertAll` calls `convertFile` with the `files` of an earlier render is not modelled. The model looks entries up in the current list. `FoundUnconverted` shows that each selected entry is found there exactly as it was in the list `convertAll` started from, so both lookups give the same entry.
- The DOM download in `triggerDownload` is not modelled. A download is returned as a file name and the converted document.
- The "Unknown error" fallback messages are left out, because the service rejects only with `Error` objects.
- The presentation components and the display predicates in them are not modelled: the file card, the uploader, the file list and the app shell.
- LottieConverter.Converter.ConvertAll: its history is stated only as an extension of the earlier history. Each round's rendered lists are stated per call by `ConvertFile`.
