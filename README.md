# update_license_json, modelled in Dafny

`update_license_json.py` maintains a directory of JSON license records. It
works in two ways.

- **Custom entries.** `init_custom` scaffolds one empty field file per
  license or exception field under `json/custom/<shortname>/`.
  `add_custom` assembles those files into `json/custom/<shortname>.json`
  and records the entry in the index `json/custom.json`.
- **Adaptions.** `init_adaption` scaffolds field files under
  `json/adaptions/<shortname>/`. `add_adaption` lays them over the
  canonical record in `json/details/` or `json/exceptions/`, writes the
  result to `json/adaptions/<shortname>.json`, and notes the adaption in
  `json/adaptions.json`.

The model has seven modules.

- `PyText`: `str.strip`, `str.splitlines` and `str.endswith`, with Python's
  own whitespace and line-break character classes.
- `PyDict`: Python's insertion-ordered `dict`, as a key sequence plus a
  map. Assigning to an existing key keeps its position; a new key goes
  last. A dict comprehension is a fold of such assignments.
- `Json`: decoded JSON values, and the Python errors the tool can raise
  while indexing, slicing or iterating them.
- `Indexes`: the rebuilding of the two index files (`_update_references`,
  `_update_adaption`) as functions on decoded documents. `BuildIndex` is
  the comprehension written as the loop Python runs.
- `Records`: the field lists, the custom record, and the adaption
  overlay. `Restrip` is the in-place re-stripping loop over `dic.items()`.
  This module also holds the selection of field files for `init_adaption`.
- `Store`: the file system as a map from paths to contents plus a set of
  directories. The `FileSystem` class holds that state and changes it in
  place; its methods are `os.path.exists`, `open(...).read()`,
  `json.load`, `os.listdir`, `open(..., 'w').write` and
  `os.makedirs(..., exist_ok=True)`.
- `LicenseTool`: the seven operations as methods over a `FileSystem`.
  Each is proved equal to a function of the store before the call; the
  properties the tool promises are lemmas about those functions.

An operation that raises becomes a `Fail` with the Python error. The store
it leaves behind is whatever was written before the error: for example, a
rewritten `custom.json` when writing the record itself fails.

## Model

| member | source | states |
|---|---|---|
| PyText.StripShape | update_license_json.py:51 | the result is the input's characters from the end of its leading whitespace on, with only whitespace cut off either end, and it neither starts nor ends with whitespace |
| PyText.StripIdempotent | update_license_json.py:49-51 | stripping a stripped string changes nothing |
| PyText.StripTrimmed | update_license_json.py:49-51 | a string with no whitespace at either end is its own strip |
| PyText.SplitLines | update_license_json.py:44 | the lines hold no line-break character, and there are none exactly for the empty text |
| PyText.SplitLinesLosesOnlyBreaks | update_license_json.py:44 | joining the lines gives the text with exactly its line-break characters removed |
| PyText.SplitLinesOneLine | update_license_json.py:44 | a non-empty text without line breaks comes back as one line |
| PyText.SplitLinesBreak | update_license_json.py:44 | a break-free line followed by one line boundary (one break character, or `\r\n`) is the first line, and the rest is split on its own |
| PyText.SplitLinesKeepsEmptyLines | update_license_json.py:44 | empty interior lines and surrounding blanks are kept: `"a\n\n b "` gives `["a", "", " b "]` |
| PyDict.Set | update_license_json.py:48 | `d[k] = v` maps k to v; an existing key keeps its place, a new key is appended; a valid dict stays valid |
| PyDict.FromPairsKeys | update_license_json.py:68 | a comprehension holds exactly the keys of its list |
| PyDict.FromPairsLastWins | update_license_json.py:68 | for a duplicated key, the last occurrence supplies the value |
| PyDict.FromPairsFirstOrder | update_license_json.py:68 | the keys appear in order of first occurrence |
| PyDict.SetExistingValues | update_license_json.py:74-75 | assigning an existing key replaces its value where it stands in `values()` |
| PyDict.SetNewValues | update_license_json.py:74-75 | assigning a new key appends its value to `values()` |
| PyDict.FromPairsRebuilds | update_license_json.py:75 | rebuilding a dict from its own keys and `values()` gives the same dict |
| Json.Get | update_license_json.py:68 | `v[key]` succeeds exactly on a dict holding the key, and yields its value |
| Json.Iterate | update_license_json.py:68 | `for x in v` yields a list's items and fails exactly on a value that is not iterable |
| Json.SliceSplits | update_license_json.py:70-73 | `xs[0:1] + xs[1:] == xs` for a list, and `xs[0:1]` has at most one item |
| Indexes.KeyOf | update_license_json.py:68 | `lic[field]` used as a dict key succeeds exactly on a dict whose value there is hashable |
| Indexes.KeysOfFirstError | update_license_json.py:68 | the comprehension fails with the error of the first entry lacking a key |
| Indexes.BuildIndex | update_license_json.py:68 | the comprehension computed by a loop equals its functional definition, errors included |
| Indexes.KeyedIsKeyedBy | update_license_json.py:68 | every entry of the built index holds its own key |
| Indexes.KeyedValues | update_license_json.py:75 | re-indexing the listed values of an index gives the index back |
| Indexes.ReferenceEntrySplitsSeeAlso | update_license_json.py:69-73 | the index entry has keys reference, name, licenseId, seeAlso in that order; `reference + seeAlso` is the record's seeAlso, and `reference` has at most one item |
| Indexes.RelistedIndex | update_license_json.py:68-75 | writing an index's values back as the list and indexing again gives the same index |
| Indexes.RelistedUnique | update_license_json.py:68-75 | the relisted entries' keys are the index's keys in order, and they are distinct |
| Indexes.UpdateReferencesUnique | update_license_json.py:64-75 | afterwards the names in `licenses` are distinct, the record's name is among them, and its entry is the new one |
| Indexes.UpdateReferencesUpsert | update_license_json.py:68-75 | other top-level keys are untouched; an existing name's entry is replaced in place, a new name's entry is appended, and all other entries keep their order |
| Indexes.UpdateReferencesIdempotent | update_license_json.py:64-78 | indexing the same record twice gives the same document as indexing it once |
| Indexes.NewAdaption | update_license_json.py:147 | a new entry carries the short name as licenseId and the one note |
| Indexes.AppendNoteExtends | update_license_json.py:144-145 | appending puts the note at the end of `notes` and leaves the entry's other keys as they were |
| Indexes.UpdateAdaptionUpsert | update_license_json.py:142-149 | an existing id gets the note appended in place, a new id gets a one-note entry at the end; the list grows by one exactly in the new-id case |
| Indexes.AddNoteKeyed | update_license_json.py:142-147 | noting keeps every entry under its own licenseId and holds the short name |
| Indexes.UpdateAdaptionUnique | update_license_json.py:142-149 | afterwards the licenseIds are distinct and include the short name |
| Indexes.NotesAccumulate | update_license_json.py:138-152 | noting `a`, then `b`, against a new short name gives one entry whose notes are `[a, b]` |
| Records.LinesKeepText | update_license_json.py:43-51 | the seeAlso items are strings that, joined, give the file's text without its line breaks, and the re-stripping pass leaves the list untouched |
| Records.Restripped | update_license_json.py:49-51 | re-stripping keeps the keys and their order |
| Records.Restrip | update_license_json.py:49-51 | the in-place loop over `dic.items()` strips every string value and leaves other values as they are |
| Records.RestrippedIdempotent | update_license_json.py:49-51 | re-stripping a re-stripped record changes nothing |
| Records.OverlayStripsOnce | update_license_json.py:41-51 | stripping after every assignment is the same as assigning everything, then stripping once |
| Records.OverlayValue | update_license_json.py:115-128 | after the overlay a key is present iff it was, or was overlaid; an overlaid key holds its last file's stripped value, any other its stripped old value |
| Records.OverlayEmpty | update_license_json.py:41-51 | distinct fields read into an empty record give exactly those keys in order, each holding its own file's stripped value |
| Records.CustomRecordShape | update_license_json.py:39-55 | the custom record's keys are the six license fields in order, then licenseId set to the short name; the five scalar fields are their stripped texts, and seeAlso is the unstripped lines |
| Records.PickMember | update_license_json.py:93-94 | a field is picked iff it is an argument, a field of the kind, and truthy |
| Records.ChosenExactly | update_license_json.py:84-96 | a file is created iff its field is of the kind and is the template or flagged true; at least the template is created |
| Records.UnassembledMember | update_license_json.py:35 | a listed name is assembled iff it does not end in `.json` |
| Store.TextAt | update_license_json.py:42 | a read succeeds exactly on an existing text file |
| Store.JsonAt | update_license_json.py:66-67 | a load succeeds exactly on an existing JSON file |
| Store.Listing | update_license_json.py:34 | a listing succeeds exactly on an existing directory |
| Store.Write | update_license_json.py:60-61 | a write succeeds exactly when the path is not a directory and its parent directory exists |
| Store.WriteThenRead | update_license_json.py:77-78 | after a write the store is still a tree, the path reads back what was written, and every path outside it reads as before |
| Store.MakeDirsEffect | update_license_json.py:19 | `makedirs` succeeds iff no file stands on the way; then the path is a directory, no file changes, and only its missing ancestors are added |
| Store.MakeDirsIdempotent | update_license_json.py:19 | with `exist_ok=True`, a second `makedirs` changes nothing |
| Store.FileSystem.IsPresent | update_license_json.py:26 | answers whether a file or directory is at the path |
| Store.FileSystem.ReadText | update_license_json.py:42 | returns the read of the current store |
| Store.FileSystem.Load | update_license_json.py:111-112 | returns the load of the current store; a loaded dict is well formed |
| Store.FileSystem.ListDir | update_license_json.py:34 | returns every name in the directory exactly once, or the listing's error |
| Store.FileSystem.WriteFile | update_license_json.py:27-28 | the store becomes the written one, or fails unchanged; it stays a tree |
| Store.FileSystem.MakeDirectories | update_license_json.py:19 | the store becomes the one `makedirs` gives, or fails unchanged |
| LicenseTool.InitFilesEffect | update_license_json.py:21-28 | scaffolding inside an existing directory succeeds; every field's path then exists, no existing file changes, and the only new files are empty field files |
| LicenseTool.InitFilesIdempotent | update_license_json.py:25-28 | scaffolding again the same fields, or some of them, changes nothing |
| LicenseTool.InitCustomEffect | update_license_json.py:17-22 | `init_custom` succeeds iff no file is in the way of its directory; then it creates every field of the kind (`exc` gives exception fields, anything else license fields) and only those, touches no existing file, and a second run changes nothing |
| LicenseTool.InitAdaptionEffect | update_license_json.py:81-96 | `init_adaption` creates the kind's template and every flagged field of the kind, and no other file; existing files keep their contents |
| LicenseTool.ReadTexts | update_license_json.py:41-46 | reading succeeds iff every field file is readable, and then gives each file's text in order |
| LicenseTool.RecordIndexed | update_license_json.py:64-78 | for any record with a name, licenseId and seeAlso list, the rewritten `custom.json` is unique by name and its entry for that name has that licenseId and splits the seeAlso list into reference and seeAlso |
| LicenseTool.ReferencesIndexed | update_license_json.py:38-78 | the same for the custom record assembled from the field texts |
| LicenseTool.ReadTextsFirstError | update_license_json.py:41-42 | reading fails with the error of the first unreadable field file |
| LicenseTool.RunEachStops | update_license_json.py:38-61 | processing stops at the first short name that fails: the names after it change nothing |
| LicenseTool.AddRecordEffect | update_license_json.py:57-61 | after `add_custom` the record file holds the record and `custom.json` the updated index; nothing outside the two paths reads differently |
| LicenseTool.AddCustomOneEffect | update_license_json.py:38-61 | after a successful `add_custom` the record file holds the assembled record; `custom.json` is unique by name, and the entry for the record's name has licenseId equal to the short name and reference plus seeAlso equal to the seeAlso lines; nothing else reads differently |
| LicenseTool.AddCustomOneIdempotent | update_license_json.py:38-78 | running `add_custom` again on unchanged field files leaves the store exactly as it is |
| LicenseTool.OverlaidFields | update_license_json.py:114-128 | in the adaption record a present field holds its file's stripped text, or its lines for seeAlso; another canonical key keeps its value, stripped if it is a string and untouched otherwise; no other key appears |
| LicenseTool.AddAdaptionEffect | update_license_json.py:105-135 | after a successful `add_adaption` the record file holds the adaption record; `adaptions.json` is the index with the note added, unique by licenseId and holding the short name; every other path reads as before |
| LicenseTool.AdaptionRecordShape | update_license_json.py:105-128 | the adaption record is the canonical record of the kind the scaffold shows (`licenseExceptionTemplate` present means an exception) with the present field files laid over it, and is the canonical record itself when no field file exists |
| LicenseTool.PresentMember | update_license_json.py:115-118 | a field is overlaid exactly when it is in the field list and its file exists in the directory |
| LicenseTool.AdaptionFieldsPresent | update_license_json.py:106-118 | the fields laid over the canonical record are exactly the fields of the kind the listing shows whose file exists in the adaption's directory |
| LicenseTool.AddAdaptionKeepsCanonical | update_license_json.py:105-135 | `add_adaption` leaves the canonical license and exception records as they were |
| LicenseTool.AdaptionWrites | update_license_json.py:130-152 | the two writes of `add_adaption` leave the record at its path, the noted index in `adaptions.json`, and every other path as it was |
| LicenseTool.InitFileAt | update_license_json.py:25-28 | `_init_file` leaves an existing path alone and otherwise writes an empty file |
| LicenseTool.InitCustom | update_license_json.py:17-22 | the method's effect and outcome are those of `InitCustomResult` |
| LicenseTool.InitAdaption | update_license_json.py:81-102 | the method's effect and outcome are those of `InitAdaptionResult`, with no `is_exception` argument giving a `KeyError`; the empty-scaffold branch is shown unreachable |
| LicenseTool.InitChosen | update_license_json.py:92-96 | the loop creates the picked field files in argument order, and `is_empty` holds iff none was picked |
| LicenseTool.AssembleCustom | update_license_json.py:39-55 | the field loop computes the custom record, or the first read error; the `licenseExceptionId` branch is shown unreachable |
| LicenseTool.UpdateReferencesFile | update_license_json.py:64-78 | the method's effect and outcome are those of `ReferencesWritten` |
| LicenseTool.AddCustomEntry | update_license_json.py:38-61 | one short name is processed as `AddCustomOne` states |
| LicenseTool.ReadFields | update_license_json.py:41-51 | the field loop of `add_custom` gives the first read error, or the stripped field values laid over an empty record |
| LicenseTool.AddCustomEach | update_license_json.py:38-61 | the loop over short names computes `AddCustomAll`, stopping at the first failure |
| LicenseTool.AddCustom | update_license_json.py:31-61 | with a short name, only that one is processed; without one, exactly the listed entries not ending in `.json`, in listing order, stopping at the first failure |
| LicenseTool.OverlayFields | update_license_json.py:114-128 | the field loop of `add_adaption` computes `Overlaid` over the present fields, including its error cases |
| LicenseTool.UpdateAdaptionFile | update_license_json.py:138-152 | the method's effect and outcome are those of `AdaptionsWritten` |
| LicenseTool.AddAdaption | update_license_json.py:105-135 | the method's effect and outcome are those of `AddAdaptionResult` |

## Behaviour worth noting

- **seeAlso lines.** `seeAlso` is the whole result of `str.splitlines()`. Empty interior lines are kept, and no line is stripped (`SplitLinesKeepsEmptyLines`, `LinesKeepText`).
- **Order of writes in `add_custom`.** `_update_references` rewrites `custom.json` first (line 57), and the record is written afterwards (lines 58-61). So a failing index update leaves the record file unwritten, and a failing record write leaves the index already rewritten.
- **Empty adaption scaffold.** The template field is forced to true (lines 88-91), so `is_empty` is never true and the `rmdir` branch (lines 97-102) never runs (`ChosenExactly`, `InitAdaption`).
- **Record keys.** The assembled custom record always holds the six license fields plus `licenseId`, for an exception as well (`CustomRecordShape`, `AssembleCustom`).

## Left out

- `_parse_args` and `main` (lines 154-227): argument parsing and dispatch are library configuration. `init_adaption` receives the parsed arguments as a list of (name, value) pairs, with values that are a flag, a string or None.
- JSON text: `json.dumps(..., indent=2)` and `json.load` are not modelled as text. Every file is either text or a decoded document. A field path holding a document reads as `Unreadable`, where Python would return the document's text. Text at a `.json` path is treated as undecodable, even when it would decode.
- Byte-level file content and encodings: a field file holds a string of characters.
- `os.path.join` formatting: paths are sequences of components, and a short name is one component. A short name containing `/`, or `None` where the code joins it into a path, is not modelled.
- JSON numbers are integers: floats such as `1.5` or `1e3` in a canonical record cannot be held. The tool only passes numbers through, so no behaviour of its own is lost.
- Python key equality across types: `True == 1 == 1.0` collide as dict keys in Python; the model treats distinct JSON values as distinct keys.
- `os.rmdir` and `print` in the `is_empty` branch of `init_adaption`: the branch is unreachable, as stated above.
- The order of `os.listdir`: `Store.FileSystem.ListDir` returns some enumeration of the directory, and `LicenseTool.AddCustom` states its result for the listing it returns (a ghost out-parameter), not for one fixed order.
- Indexes.UpdateReferencesUpsert: positions are stated only for an index whose names are already distinct. For a list with duplicate names, how they collapse is stated by PyDict.FromPairsFirstOrder and PyDict.FromPairsLastWins instead.
- Indexes.UpdateAdaptionUpsert: positions are stated only for an index whose licenseIds are already distinct, for the same reason.
- `dic['notes'].append(note)` mutates the entry object shared by the loaded document and the index dict. The model builds the new entry as a value. This is equivalent here, because the document's old list is replaced by the index's values before it is written.
- Concurrency, crashes during a write, and races on the index files: the tool is single-threaded. Each write is atomic in the model.
