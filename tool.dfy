/** The tool's operations: scaffolding field files for a custom license or
    an adaption, assembling a custom license record and indexing it in
    `custom.json`, and overlaying adaption field files onto a canonical
    record while noting the adaption in `adaptions.json`. Each operation
    is a method that changes a `FileSystem` in place, proved equal to a
    function of the store's state before the call. */
module LicenseTool {
  import opened PyText
  import opened PyDict
  import opened Json
  import opened Records
  import opened Indexes
  import opened Store

  datatype Option<T> = None | Some(value: T)

  /** What an operation leaves behind: how it ended, and the store, which an
      operation that fails half way may already have changed. */
  datatype Run = Run(outcome: Outcome, disk: Disk)

  /** A step that either fails without touching the store or succeeds. */
  function AsRun(before: Disk, r: Result<Disk>): Run {
    if r.Ok? then Run(Pass, r.value) else Run(Fail(r.error), before)
  }

  function CustomDir(shortname: string): Path { ["json", "custom", shortname] }
  const CustomRoot: Path := ["json", "custom"]
  function CustomRecordPath(shortname: string): Path { ["json", "custom", shortname + ".json"] }
  const CustomIndex: Path := ["json", "custom.json"]
  function AdaptionDir(shortname: string): Path { ["json", "adaptions", shortname] }
  function AdaptionRecordPath(shortname: string): Path { ["json", "adaptions", shortname + ".json"] }
  const AdaptionIndex: Path := ["json", "adaptions.json"]
  function CanonicalPath(shortname: string, isException: bool): Path {
    ["json", if isException then "exceptions" else "details", shortname + ".json"]
  }

  // ---------------------------------------------------------------------
  // Scaffolding: init_custom, _init_file, init_adaption

  /** `_init_file(p)`: an empty file unless something is already there. */
  function InitFile(d: Disk, p: Path): Result<Disk> {
    if Exists(d, p) then Ok(d) else Write(d, p, Text(""))
  }

  /** `_init_file` for each field in turn. */
  function InitFiles(d: Disk, dir: Path, fields: seq<string>): Result<Disk>
    decreases |fields|
  {
    if fields == [] then Ok(d)
    else
      var n := |fields| - 1;
      var d1 :- InitFiles(d, dir, fields[..n]);
      InitFile(d1, dir + [fields[n]])
  }

  /** `p` names field `f` of `dir` for some `f` among `fields`. */
  predicate FieldPath(p: Path, dir: Path, fields: seq<string>) {
    |p| == |dir| + 1 && p[..|dir|] == dir && p[|dir|] in fields
  }

  /** Scaffolding inside an existing directory cannot fail: afterwards every
      field's path exists, no existing file has been touched, and the only
      new files are empty ones for the fields. */
  lemma {:induction false} InitFilesEffect(d: Disk, dir: Path, fields: seq<string>)
    requires Sound(d) && dir in d.dirs
    ensures InitFiles(d, dir, fields).Ok?
    ensures var d' := InitFiles(d, dir, fields).value;
      && Sound(d') && d'.dirs == d.dirs
      && (forall f :: f in fields ==> Exists(d', dir + [f]))
      && (forall p :: p in d.files ==> p in d'.files && d'.files[p] == d.files[p])
      && (forall p :: p in d'.files && p !in d.files ==> d'.files[p] == Text("") && FieldPath(p, dir, fields))
    decreases |fields|
  {
    if fields != [] {
      var n := |fields| - 1;
      InitFilesEffect(d, dir, fields[..n]);
      var d1 := InitFiles(d, dir, fields[..n]).value;
      var p := dir + [fields[n]];
      assert p[..|dir|] == dir && Parent(p) == dir;
      if !Exists(d1, p) {
        WriteThenRead(d1, p, Text(""), p);
      }
      var d' := InitFiles(d, dir, fields).value;
      forall f | f in fields ensures Exists(d', dir + [f]) {
        if f != fields[n] {
          var i :| 0 <= i < |fields| && fields[i] == f;
          assert fields[..n][i] == f;
        }
      }
      forall q | q in d'.files && q !in d.files ensures FieldPath(q, dir, fields) {
        if q != p {
          var i :| 0 <= i < n && fields[..n][i] == q[|dir|];
          assert fields[i] == q[|dir|];
        }
      }
    }
  }

  /** One more field file: the next step of the scaffolding loop succeeds. */
  lemma InitFilesStep(d: Disk, dir: Path, fields: seq<string>, i: nat)
    requires Sound(d) && dir in d.dirs && i < |fields|
    ensures InitFiles(d, dir, fields[..i]).Ok?
    ensures InitFile(InitFiles(d, dir, fields[..i]).value, dir + [fields[i]]) == InitFiles(d, dir, fields[..i + 1])
    ensures InitFiles(d, dir, fields[..i + 1]).Ok?
  {
    assert fields[..i + 1][..i] == fields[..i];
    InitFilesEffect(d, dir, fields[..i + 1]);
    InitFilesEffect(d, dir, fields[..i]);
  }

  lemma PickStep(keys: seq<string>, args: map<string, Arg>, fields: seq<string>, i: nat)
    requires i < |keys|
    ensures Pick(keys[..i + 1], args, fields) == Pick(keys[..i], args, fields) +
      (if keys[i] in fields && keys[i] in args && Truthy(args[keys[i]]) then [keys[i]] else [])
  {
    assert keys[..i + 1][..i] == keys[..i];
  }

  /** One step of the `init_adaption` loop: a chosen field adds its file,
      any other field leaves the scaffold as it was. */
  lemma ChosenStep(d: Disk, dir: Path, keys: seq<string>, args: map<string, Arg>, fields: seq<string>, i: nat)
    requires Sound(d) && dir in d.dirs && i < |keys|
    ensures var before, after := Pick(keys[..i], args, fields), Pick(keys[..i + 1], args, fields);
      && InitFiles(d, dir, before).Ok? && InitFiles(d, dir, after).Ok?
      && (keys[i] in fields && keys[i] in args && Truthy(args[keys[i]]) ==>
            after == before + [keys[i]] && InitFiles(d, dir, after) == InitFile(InitFiles(d, dir, before).value, dir + [keys[i]]))
      && (!(keys[i] in fields && keys[i] in args && Truthy(args[keys[i]])) ==> after == before)
  {
    var before, after := Pick(keys[..i], args, fields), Pick(keys[..i + 1], args, fields);
    PickStep(keys, args, fields, i);
    InitFilesEffect(d, dir, before);
    InitFilesEffect(d, dir, after);
    if keys[i] in fields && keys[i] in args && Truthy(args[keys[i]]) {
      assert after[..|before|] == before && after[|before|] == keys[i];
      assert after[..|before| + 1] == after;
      InitFilesStep(d, dir, after, |before|);
    } else {
      assert before + [] == before;
    }
  }

  /** A second scaffolding of the same fields changes nothing. */
  lemma {:induction false} InitFilesIdempotent(d: Disk, dir: Path, fields: seq<string>, again: seq<string>)
    requires Sound(d) && dir in d.dirs && InitFiles(d, dir, fields).Ok?
    requires forall f :: f in again ==> f in fields
    ensures InitFiles(InitFiles(d, dir, fields).value, dir, again) == InitFiles(d, dir, fields)
    decreases |again|
  {
    InitFilesEffect(d, dir, fields);
    if again != [] {
      var n := |again| - 1;
      InitFilesIdempotent(d, dir, fields, again[..n]);
      assert again[n] in fields;
    }
  }

  /** `init_custom(shortname, is_exception)`. */
  function InitCustomResult(d: Disk, shortname: string, kind: string): Result<Disk> {
    var d1 :- MakeDirs(d, CustomDir(shortname));
    InitFiles(d1, CustomDir(shortname), KindFields(kind == "exc"))
  }

  /** `init_custom` fails only when a file stands where a directory of the
      scaffold should be, and then changes nothing; otherwise every field
      file of the kind exists, existing files keep their contents, and the
      new files are empty field files. Running it twice is running it once. */
  lemma InitCustomEffect(d: Disk, shortname: string, kind: string)
    requires Sound(d)
    ensures var dir := CustomDir(shortname);
      && (InitCustomResult(d, shortname, kind).Ok? <==> forall k :: 0 < k <= |dir| ==> dir[..k] !in d.files)
      && (InitCustomResult(d, shortname, kind).Ok? ==>
           var d' := InitCustomResult(d, shortname, kind).value;
           && Sound(d') && dir in d'.dirs
           && (forall f :: f in KindFields(kind == "exc") ==> Exists(d', dir + [f]))
           && (forall p :: p in d.files ==> p in d'.files && d'.files[p] == d.files[p])
           && (forall p :: p in d'.files && p !in d.files ==>
                 d'.files[p] == Text("") && FieldPath(p, dir, KindFields(kind == "exc")))
           && InitCustomResult(d', shortname, kind) == Ok(d'))
  {
    var dir := CustomDir(shortname);
    var fields := KindFields(kind == "exc");
    MakeDirsEffect(d, dir);
    if MakeDirs(d, dir).Ok? {
      var d1 := MakeDirs(d, dir).value;
      InitFilesEffect(d1, dir, fields);
      var d' := InitFiles(d1, dir, fields).value;
      MakeDirsEffect(d', dir);
      assert MakeDirs(d', dir) == Ok(d');
      InitFilesIdempotent(d1, dir, fields, fields);
    }
  }

  /** `dict(fields)` over the parsed arguments. */
  function ArgDict(args: seq<(string, Arg)>): (a: Dict<string, Arg>)
    ensures Valid(a)
  {
    FromPairs(seq(|args|, i requires 0 <= i < |args| => args[i].0),
              seq(|args|, i requires 0 <= i < |args| => args[i].1))
  }

  /** `init_adaption(shortname, fields)`. */
  function InitAdaptionResult(d: Disk, shortname: string, args: seq<(string, Arg)>): Result<Disk> {
    var a := ArgDict(args);
    if "is_exception" !in a.vals then Err(KeyError("is_exception"))
    else
      var isException := a.vals["is_exception"] == AStr("exc");
      var d1 :- MakeDirs(d, AdaptionDir(shortname));
      InitFiles(d1, AdaptionDir(shortname), Chosen(a, isException))
  }

  /** `init_adaption` creates the template file of the kind and the field
      files asked for, and no others; it keeps existing files as they are. */
  lemma InitAdaptionEffect(d: Disk, shortname: string, args: seq<(string, Arg)>)
    requires Sound(d) && InitAdaptionResult(d, shortname, args).Ok?
    ensures var a := ArgDict(args);
      var isException := a.vals["is_exception"] == AStr("exc");
      var dir := AdaptionDir(shortname);
      var d' := InitAdaptionResult(d, shortname, args).value;
      && Sound(d') && dir in d'.dirs
      && Exists(d', dir + [Template(isException)])
      && (forall f :: f in KindFields(isException) && f in a.vals && Truthy(a.vals[f]) ==> Exists(d', dir + [f]))
      && (forall p :: p in d.files ==> p in d'.files && d'.files[p] == d.files[p])
      && (forall p :: p in d'.files && p !in d.files ==>
            && d'.files[p] == Text("") && |p| == |dir| + 1 && p[..|dir|] == dir
            && p[|dir|] in KindFields(isException)
            && (p[|dir|] == Template(isException) || (p[|dir|] in a.vals && Truthy(a.vals[p[|dir|]]))))
  {
    var a := ArgDict(args);
    var isException := a.vals["is_exception"] == AStr("exc");
    var dir := AdaptionDir(shortname);
    MakeDirsEffect(d, dir);
    var d1 := MakeDirs(d, dir).value;
    var chosen := Chosen(a, isException);
    InitFilesEffect(d1, dir, chosen);
    var d' := InitFiles(d1, dir, chosen).value;
    ChosenExactly(a, isException, Template(isException));
    forall f | f in KindFields(isException) && f in a.vals && Truthy(a.vals[f]) ensures Exists(d', dir + [f]) {
      ChosenExactly(a, isException, f);
    }
    forall p | p in d'.files && p !in d.files
      ensures p[|dir|] in KindFields(isException)
      ensures p[|dir|] == Template(isException) || (p[|dir|] in a.vals && Truthy(a.vals[p[|dir|]]))
    {
      ChosenExactly(a, isException, p[|dir|]);
    }
  }

  // ---------------------------------------------------------------------
  // add_custom, _update_references

  /** The texts of the field files of `dir`, read in order; the first file
      that cannot be read stops the reading. */
  function ReadTexts(d: Disk, dir: Path, fields: seq<string>): (r: Result<seq<string>>)
    ensures r.Ok? <==> forall i :: 0 <= i < |fields| ==> TextAt(d, dir + [fields[i]]).Ok?
    ensures r.Ok? ==> |r.value| == |fields|
    ensures r.Ok? ==> forall i :: 0 <= i < |fields| ==> TextAt(d, dir + [fields[i]]) == Ok(r.value[i])
    decreases |fields|
  {
    if fields == [] then Ok([])
    else
      var n := |fields| - 1;
      var texts :- ReadTexts(d, dir, fields[..n]);
      var text :- TextAt(d, dir + [fields[n]]);
      Ok(texts + [text])
  }

  lemma {:induction false} ReadTextsFirstError(d: Disk, dir: Path, fields: seq<string>, i: nat)
    requires i < |fields|
    requires ReadTexts(d, dir, fields[..i]).Ok? && TextAt(d, dir + [fields[i]]).Err?
    ensures ReadTexts(d, dir, fields) == Err(TextAt(d, dir + [fields[i]]).error)
    decreases |fields|
  {
    var n := |fields| - 1;
    if i == n {
      assert fields[..n] == fields[..i];
    } else {
      assert fields[..n][..i] == fields[..i];
      ReadTextsFirstError(d, dir, fields[..n], i);
    }
  }

  /** The record `add_custom` assembles from `json/custom/<shortname>/`. */
  function CustomRecordAt(d: Disk, shortname: string): Result<Dict<string, Json>> {
    var texts :- ReadTexts(d, CustomDir(shortname), LicenseFields);
    Ok(CustomRecord(shortname, texts))
  }

  /** `_update_references(fields)`: `custom.json` read, updated and rewritten. */
  function ReferencesWritten(d: Disk, fields: Dict<string, Json>): Result<Disk> {
    var doc :- JsonAt(d, CustomIndex);
    var doc' :- UpdateReferences(doc, fields);
    Write(d, CustomIndex, Doc(doc'))
  }

  /** `add_custom` for one short name: the record is assembled, indexed, and
      written to `json/custom/<shortname>.json`. */
  function AddCustomOne(d: Disk, shortname: string): Run {
    AddRecord(d, shortname, CustomRecordAt(d, shortname))
  }

  /** The steps of `add_custom` after the record is assembled. */
  function AddRecord(d: Disk, shortname: string, assembled: Result<Dict<string, Json>>): Run {
    match assembled
    case Err(e) => Run(Fail(e), d)
    case Ok(record) =>
      match ReferencesWritten(d, record)
      case Err(e) => Run(Fail(e), d)
      case Ok(d1) => AsRun(d1, Write(d1, CustomRecordPath(shortname), Doc(JObj(record))))
  }

  /** `add_custom` for each short name in turn, stopping at the first failure. */
  function AddCustomAll(d: Disk, names: seq<string>): Run {
    RunEach(d, names, AddCustomOne)
  }

  /** `step` applied to each name in turn, stopping at the first failure. */
  function RunEach(d: Disk, names: seq<string>, step: (Disk, string) -> Run): Run
    decreases |names|
  {
    if names == [] then Run(Pass, d)
    else
      var n := |names| - 1;
      var r := RunEach(d, names[..n], step);
      if r.outcome.Fail? then r else step(r.disk, names[n])
  }

  /** Processing stops at the first name that fails: the names after it are
      never tried. */
  lemma {:induction false} RunEachStops(d: Disk, names: seq<string>, i: nat, step: (Disk, string) -> Run)
    requires i <= |names| && RunEach(d, names[..i], step).outcome.Fail?
    ensures RunEach(d, names, step) == RunEach(d, names[..i], step)
    decreases |names|
  {
    if i < |names| {
      var n := |names| - 1;
      assert names[..n][..i] == names[..i];
      RunEachStops(d, names[..n], i, step);
    } else {
      assert names[..i] == names;
    }
  }


  // ---------------------------------------------------------------------
  // add_adaption, _update_adaption

  /** The fields among `fields` whose file exists in `dir`, in order. */
  function Present(d: Disk, dir: Path, fields: seq<string>): (r: seq<string>)
    ensures |r| <= |fields|
    decreases |fields|
  {
    if fields == [] then []
    else
      var n := |fields| - 1;
      Present(d, dir, fields[..n]) + (if Exists(d, dir + [fields[n]]) then [fields[n]] else [])
  }

  /** A field is present exactly when it is one of `fields` and its file
      exists in `dir`. */
  lemma {:induction false} PresentMember(d: Disk, dir: Path, fields: seq<string>)
    ensures forall f :: f in Present(d, dir, fields) <==> f in fields && Exists(d, dir + [f])
    decreases |fields|
  {
    if fields != [] {
      var n := |fields| - 1;
      PresentMember(d, dir, fields[..n]);
      assert fields == fields[..n] + [fields[n]];
    }
  }

  /** The canonical record with the adaption's field files laid over it: it
      is left as loaded when no field file exists; otherwise it must be a
      dict, and the first field file is read before that is found out. */
  function Overlaid(d: Disk, dir: Path, canon: Json, present: seq<string>): Result<Json> {
    if present == [] then Ok(canon)
    else
      var _ :- TextAt(d, dir + [present[0]]);
      if !canon.JObj? then Err(TypeError)
      else
        var texts :- ReadTexts(d, dir, present);
        Ok(JObj(Overlay(canon.obj, present, texts)))
  }

  /** `_update_adaption(shortname, note)`. */
  function AdaptionsWritten(d: Disk, shortname: string, note: string): Result<Disk> {
    var doc :- JsonAt(d, AdaptionIndex);
    var doc' :- UpdateAdaption(doc, shortname, note);
    Write(d, AdaptionIndex, Doc(doc'))
  }

  /** The record `add_adaption` writes: the canonical record of the
      adaption's kind, with its field files laid over it. The kind is an
      exception exactly when the adaption directory holds a
      `licenseExceptionTemplate` entry. */
  function AdaptionRecord(d: Disk, shortname: string): Result<Json> {
    var dir := AdaptionDir(shortname);
    var names :- Listing(d, dir);
    var isException := "licenseExceptionTemplate" in names;
    var canon :- JsonAt(d, CanonicalPath(shortname, isException));
    Overlaid(d, dir, canon, Present(d, dir, KindFields(isException)))
  }

  /** `add_adaption(shortname, note)`. */
  function AddAdaptionResult(d: Disk, shortname: string, note: string): Run {
    match AdaptionRecord(d, shortname)
    case Err(e) => Run(Fail(e), d)
    case Ok(record) =>
      match AdaptionsWritten(d, shortname, note)
      case Err(e) => Run(Fail(e), d)
      case Ok(d1) => AsRun(d1, Write(d1, AdaptionRecordPath(shortname), Doc(record)))
  }

  /** `add_custom` for one short name, when it succeeds: the record built
      from the field files is written to `json/custom/<shortname>.json`;
      `custom.json` is unique by name and holds the record's entry under
      its name, with `licenseId` the short name and `reference + seeAlso`
      the lines of the `seeAlso` file; no other path reads differently. */
  lemma AddCustomOneEffect(d: Disk, shortname: string)
    requires Sound(d) && AddCustomOne(d, shortname).outcome.Pass?
    ensures ReadTexts(d, CustomDir(shortname), LicenseFields).Ok?
    ensures var texts := ReadTexts(d, CustomDir(shortname), LicenseFields).value;
      var record := CustomRecord(shortname, texts);
      var d' := AddCustomOne(d, shortname).disk;
      && Sound(d')
      && JsonAt(d', CustomRecordPath(shortname)) == Ok(JObj(record))
      && JsonAt(d', CustomIndex).Ok? && IndexedByName(JsonAt(d', CustomIndex).value, JStr(Strip(texts[0])), shortname, Lines(texts[5]))
      && forall q :: !Within(q, CustomIndex) && !Within(q, CustomRecordPath(shortname)) ==>
           TextAt(d', q) == TextAt(d, q) && JsonAt(d', q) == JsonAt(d, q)
  {
    var texts := ReadTexts(d, CustomDir(shortname), LicenseFields).value;
    var record := CustomRecord(shortname, texts);
    AddRecordEffect(d, shortname, record);
    ReferencesIndexed(JsonAt(d, CustomIndex).value, shortname, texts);
  }

  /** The writes of `add_custom` for an assembled record. */
  lemma AddRecordEffect(d: Disk, shortname: string, record: Dict<string, Json>)
    requires Sound(d) && Valid(record) && AddRecord(d, shortname, Ok(record)).outcome.Pass?
    ensures JsonAt(d, CustomIndex).Ok? && UpdateReferences(JsonAt(d, CustomIndex).value, record).Ok?
    ensures var d' := AddRecord(d, shortname, Ok(record)).disk;
      && Sound(d')
      && JsonAt(d', CustomRecordPath(shortname)) == Ok(JObj(record))
      && JsonAt(d', CustomIndex) == UpdateReferences(JsonAt(d, CustomIndex).value, record)
      && forall q :: !Within(q, CustomIndex) && !Within(q, CustomRecordPath(shortname)) ==>
           TextAt(d', q) == TextAt(d, q) && JsonAt(d', q) == JsonAt(d, q)
  {
    var doc := JsonAt(d, CustomIndex).value;
    var out := UpdateReferences(doc, record).value;
    var d1 := ReferencesWritten(d, record).value;
    assert d1 == Write(d, CustomIndex, Doc(out)).value;
    assert DocValid(out);
    TwoWrites(d, CustomIndex, Doc(out), CustomRecordPath(shortname), Doc(JObj(record)));
  }

  /** Running `add_custom` again on unchanged field files changes nothing:
      the record and the index are written back as they already are. */
  lemma AddCustomOneIdempotent(d: Disk, shortname: string)
    requires Sound(d) && AddCustomOne(d, shortname).outcome.Pass?
    ensures var d' := AddCustomOne(d, shortname).disk;
      AddCustomOne(d', shortname) == Run(Pass, d')
  {
    var texts := ReadTexts(d, CustomDir(shortname), LicenseFields).value;
    var record := CustomRecord(shortname, texts);
    AddRecordEffect(d, shortname, record);
    var d' := AddCustomOne(d, shortname).disk;
    FieldFilesKept(d, d', shortname, LicenseFields);
    assert CustomRecordAt(d', shortname) == Ok(record);
    var doc := JsonAt(d, CustomIndex).value;
    UpdateReferencesIdempotent(doc, record);
    RewriteSame(d', CustomIndex);
    RewriteSame(d', CustomRecordPath(shortname));
  }

  /** The field files of `shortname` lie outside `custom.json` and the
      record `add_custom` writes, so they read the same afterwards. */
  lemma FieldFilesKept(d: Disk, d': Disk, shortname: string, fields: seq<string>)
    requires forall q :: !Within(q, CustomIndex) && !Within(q, CustomRecordPath(shortname)) ==>
      TextAt(d', q) == TextAt(d, q)
    ensures ReadTexts(d', CustomDir(shortname), fields) == ReadTexts(d, CustomDir(shortname), fields)
  {
    forall f | f in fields ensures TextAt(d', CustomDir(shortname) + [f]) == TextAt(d, CustomDir(shortname) + [f]) {
      var q := CustomDir(shortname) + [f];
      assert q[1] != CustomIndex[1];
      assert |q[2]| != |CustomRecordPath(shortname)[2]|;
    }
    ReadTextsSame(d, d', CustomDir(shortname), fields);
  }

  lemma {:induction false} ReadTextsSame(d: Disk, d': Disk, dir: Path, fields: seq<string>)
    requires forall f :: f in fields ==> TextAt(d', dir + [f]) == TextAt(d, dir + [f])
    ensures ReadTexts(d', dir, fields) == ReadTexts(d, dir, fields)
    decreases |fields|
  {
    if fields != [] {
      var n := |fields| - 1;
      assert fields[n] in fields;
      forall f | f in fields[..n] ensures TextAt(d', dir + [f]) == TextAt(d, dir + [f]) {
        assert f in fields;
      }
      ReadTextsSame(d, d', dir, fields[..n]);
    }
  }

  /** Writing back what a file already holds leaves the store as it is. */
  lemma RewriteSame(d: Disk, p: Path)
    requires Sound(d) && p in d.files
    ensures Write(d, p, d.files[p]) == Ok(d)
  {
    assert d.files[p := d.files[p]] == d.files;
  }

  /** Two writes in a row, to paths neither of which lies within the other:
      both read back, and every path outside both reads as before. */
  lemma TwoWrites(d: Disk, p1: Path, c1: Content, p2: Path, c2: Content)
    requires Sound(d) && Write(d, p1, c1).Ok? && Write(Write(d, p1, c1).value, p2, c2).Ok?
    requires c1.Doc? && DocValid(c1.doc) && c2.Doc? && DocValid(c2.doc)
    requires !Within(p1, p2) && !Within(p2, p1)
    ensures var d' := Write(Write(d, p1, c1).value, p2, c2).value;
      && Sound(d') && JsonAt(d', p1) == Ok(c1.doc) && JsonAt(d', p2) == Ok(c2.doc)
      && forall q :: !Within(q, p1) && !Within(q, p2) ==> TextAt(d', q) == TextAt(d, q) && JsonAt(d', q) == JsonAt(d, q)
  {
    var d1 := Write(d, p1, c1).value;
    WriteThenRead(d, p1, c1, p1);
    WriteThenRead(d1, p2, c2, p1);
    forall q | !Within(q, p1) && !Within(q, p2)
      ensures TextAt(Write(d1, p2, c2).value, q) == TextAt(d, q) && JsonAt(Write(d1, p2, c2).value, q) == JsonAt(d, q)
    {
      WriteThenRead(d, p1, c1, q);
      WriteThenRead(d1, p2, c2, q);
    }
  }

  /** `_update_references` on the custom record of `shortname`. */
  lemma ReferencesIndexed(doc: Json, shortname: string, texts: seq<string>)
    requires |texts| == |LicenseFields| && UpdateReferences(doc, CustomRecord(shortname, texts)).Ok?
    ensures IndexedByName(UpdateReferences(doc, CustomRecord(shortname, texts)).value, JStr(Strip(texts[0])), shortname, Lines(texts[5]))
  {
    var record := CustomRecord(shortname, texts);
    CustomRecordShape(shortname, texts);
    assert LicenseFields[0] == "name";
    RecordIndexed(doc, record, JStr(Strip(texts[0])), shortname, Lines(texts[5]));
  }

  /** What `_update_references` leaves for any record naming `name`, `id`
      and `links`. */
  lemma RecordIndexed(doc: Json, record: Dict<string, Json>, name: Json, id: string, links: seq<Json>)
    requires "name" in record.vals && record.vals["name"] == name
    requires "licenseId" in record.vals && record.vals["licenseId"] == JStr(id)
    requires "seeAlso" in record.vals && record.vals["seeAlso"] == JArr(links)
    requires UpdateReferences(doc, record).Ok?
    ensures IndexedByName(UpdateReferences(doc, record).value, name, id, links)
  {
    UpdateReferencesUnique(doc, record);
    ReferenceEntrySplitsSeeAlso(record);
  }

  /** A `custom.json` document whose `licenses` are unique by name, and
      whose entry named `name` has `licenseId` `id` and splits `links` into
      `reference` and `seeAlso`. */
  ghost predicate IndexedByName(doc: Json, name: Json, id: string, links: seq<Json>) {
    && Get(doc, "licenses").Ok? && Get(doc, "licenses").value.JArr?
    && var xs := Get(doc, "licenses").value.items;
       && KeysOf(xs, "name").Ok? && Distinct(KeysOf(xs, "name").value)
       && name in KeysOf(xs, "name").value
       && forall i :: 0 <= i < |xs| && KeysOf(xs, "name").value[i] == name ==>
            && xs[i].JObj? && "licenseId" in xs[i].obj.vals && xs[i].obj.vals["licenseId"] == JStr(id)
            && "reference" in xs[i].obj.vals && xs[i].obj.vals["reference"].JArr?
            && "seeAlso" in xs[i].obj.vals && xs[i].obj.vals["seeAlso"].JArr?
            && xs[i].obj.vals["reference"].items + xs[i].obj.vals["seeAlso"].items == links
  }

  /** `add_adaption`, when it succeeds: the adaption record is written to
      `json/adaptions/<shortname>.json`; `adaptions.json` is unique by
      `licenseId` and holds the short name; no other path reads
      differently. */
  lemma AddAdaptionEffect(d: Disk, shortname: string, note: string)
    requires Sound(d) && AddAdaptionResult(d, shortname, note).outcome.Pass?
    ensures AdaptionRecord(d, shortname).Ok? && JsonAt(d, AdaptionIndex).Ok?
    ensures var d' := AddAdaptionResult(d, shortname, note).disk;
      && Sound(d')
      && JsonAt(d', AdaptionRecordPath(shortname)) == AdaptionRecord(d, shortname)
      && JsonAt(d', AdaptionIndex) == UpdateAdaption(JsonAt(d, AdaptionIndex).value, shortname, note)
      && IndexedById(JsonAt(d', AdaptionIndex).value, shortname)
      && forall q :: !Within(q, AdaptionIndex) && !Within(q, AdaptionRecordPath(shortname)) ==>
           TextAt(d', q) == TextAt(d, q) && JsonAt(d', q) == JsonAt(d, q)
  {
    var record := AdaptionRecord(d, shortname).value;
    AdaptionRecordShape(d, shortname);
    AdaptionWrites(d, shortname, note, record);
  }

  /** The adaption record is the canonical record of the kind the listing
      shows, with the present field files laid over it, and the canonical
      record itself when no field file exists. */
  lemma AdaptionRecordShape(d: Disk, shortname: string)
    requires Sound(d) && AdaptionRecord(d, shortname).Ok?
    ensures DocValid(AdaptionRecord(d, shortname).value)
    ensures Listing(d, AdaptionDir(shortname)).Ok?
    ensures var isException := "licenseExceptionTemplate" in Listing(d, AdaptionDir(shortname)).value;
      var canonical := CanonicalPath(shortname, isException);
      var present := Present(d, AdaptionDir(shortname), KindFields(isException));
      && JsonAt(d, canonical).Ok?
      && AdaptionRecord(d, shortname) == Overlaid(d, AdaptionDir(shortname), JsonAt(d, canonical).value, present)
      && (present == [] ==> AdaptionRecord(d, shortname) == JsonAt(d, canonical))
  {
  }

  /** The fields laid over the canonical record are exactly the fields of
      the kind whose file exists in the adaption's directory. */
  lemma AdaptionFieldsPresent(d: Disk, shortname: string)
    requires Listing(d, AdaptionDir(shortname)).Ok?
    ensures var isException := "licenseExceptionTemplate" in Listing(d, AdaptionDir(shortname)).value;
      forall f :: f in Present(d, AdaptionDir(shortname), KindFields(isException)) <==>
        f in KindFields(isException) && Exists(d, AdaptionDir(shortname) + [f])
  {
    var isException := "licenseExceptionTemplate" in Listing(d, AdaptionDir(shortname)).value;
    PresentMember(d, AdaptionDir(shortname), KindFields(isException));
  }

  /** The canonical record lies apart from both files `add_adaption`
      writes, so it is never changed by it. */
  lemma CanonicalApart(shortname: string, isException: bool)
    ensures !Within(CanonicalPath(shortname, isException), AdaptionIndex)
    ensures !Within(CanonicalPath(shortname, isException), AdaptionRecordPath(shortname))
  {
    assert CanonicalPath(shortname, isException)[1] != AdaptionRecordPath(shortname)[1];
  }

  /** `add_adaption` leaves both canonical records, licence and exception,
      as they were. */
  lemma AddAdaptionKeepsCanonical(d: Disk, shortname: string, note: string, isException: bool)
    requires Sound(d) && AddAdaptionResult(d, shortname, note).outcome.Pass?
    ensures var p := CanonicalPath(shortname, isException);
      JsonAt(AddAdaptionResult(d, shortname, note).disk, p) == JsonAt(d, p)
  {
    CanonicalApart(shortname, isException);
    AddAdaptionEffect(d, shortname, note);
  }

  /** The writes of `add_adaption` for a laid-over record. */
  lemma AdaptionWrites(d: Disk, shortname: string, note: string, record: Json)
    requires Sound(d) && DocValid(record) && AdaptionsWritten(d, shortname, note).Ok?
    requires Write(AdaptionsWritten(d, shortname, note).value, AdaptionRecordPath(shortname), Doc(record)).Ok?
    ensures JsonAt(d, AdaptionIndex).Ok?
    ensures var d' := Write(AdaptionsWritten(d, shortname, note).value, AdaptionRecordPath(shortname), Doc(record)).value;
      && Sound(d')
      && JsonAt(d', AdaptionRecordPath(shortname)) == Ok(record)
      && JsonAt(d', AdaptionIndex) == UpdateAdaption(JsonAt(d, AdaptionIndex).value, shortname, note)
      && IndexedById(JsonAt(d', AdaptionIndex).value, shortname)
      && forall q :: !Within(q, AdaptionIndex) && !Within(q, AdaptionRecordPath(shortname)) ==>
           TextAt(d', q) == TextAt(d, q) && JsonAt(d', q) == JsonAt(d, q)
  {
    var doc := JsonAt(d, AdaptionIndex).value;
    var out := UpdateAdaption(doc, shortname, note).value;
    var d1 := AdaptionsWritten(d, shortname, note).value;
    assert d1 == Write(d, AdaptionIndex, Doc(out)).value;
    assert DocValid(out);
    TwoWrites(d, AdaptionIndex, Doc(out), AdaptionRecordPath(shortname), Doc(record));
    UpdateAdaptionUnique(doc, shortname, note);
  }

  /** An `adaptions.json` document whose `adaptions` are unique by
      `licenseId` and include `shortname`. */
  ghost predicate IndexedById(doc: Json, shortname: string) {
    && Get(doc, "adaptions").Ok? && Get(doc, "adaptions").value.JArr?
    && var xs := Get(doc, "adaptions").value.items;
       && KeysOf(xs, "licenseId").Ok? && Distinct(KeysOf(xs, "licenseId").value)
       && JStr(shortname) in KeysOf(xs, "licenseId").value
  }

  /** The adaption record field by field: a present field holds its file's
      text, stripped (`seeAlso` as its lines); any other key of the
      canonical record keeps its value, stripped if it is a string and
      untouched otherwise; nothing else is added. */
  lemma OverlaidFields(d: Disk, dir: Path, canon: Json, present: seq<string>, k: string)
    requires present != [] && Overlaid(d, dir, canon, present).Ok?
    ensures canon.JObj? && Overlaid(d, dir, canon, present).value.JObj?
    ensures var rec := Overlaid(d, dir, canon, present).value.obj;
      && (k in rec.vals <==> k in canon.obj.vals || k in present)
      && (k in present ==> TextAt(d, dir + [k]).Ok? && rec.vals[k] == StripValue(FieldValue(k, TextAt(d, dir + [k]).value)))
      && (k !in present && k in canon.obj.vals ==> rec.vals[k] == StripValue(canon.obj.vals[k]))
      && (k !in present && k in canon.obj.vals && !canon.obj.vals[k].JStr? ==> rec.vals[k] == canon.obj.vals[k])
  {
    var texts := ReadTexts(d, dir, present).value;
    OverlayValue(canon.obj, present, texts, k);
    if k in present {
      var i := LastIndex(present, k);
      assert TextAt(d, dir + [present[i]]) == Ok(texts[i]);
    }
  }

  // ---------------------------------------------------------------------
  // The operations as the tool runs them

  /** `_init_file(path)`. */
  method InitFileAt(fs: FileSystem, p: Path) returns (r: Outcome)
    requires fs.Valid()
    modifies fs
    ensures fs.Valid()
    ensures Run(r, fs.State()) == AsRun(old(fs.State()), InitFile(old(fs.State()), p))
  {
    var present := fs.IsPresent(p);
    if present {
      return Pass;
    }
    r := fs.WriteFile(p, Text(""));
  }

  /** `init_custom(shortname, is_exception)`. */
  method InitCustom(fs: FileSystem, shortname: string, kind: string) returns (r: Outcome)
    requires fs.Valid()
    modifies fs
    ensures fs.Valid()
    ensures Run(r, fs.State()) == AsRun(old(fs.State()), InitCustomResult(old(fs.State()), shortname, kind))
  {
    var dir := CustomDir(shortname);
    ghost var d0 := fs.State();
    r := fs.MakeDirectories(dir);
    if r.Fail? {
      return;
    }
    MakeDirsMakes(d0, dir);
    var fields := KindFields(kind == "exc");
    ghost var d1 := fs.State();
    for i := 0 to |fields|
      invariant fs.Valid()
      invariant InitFiles(d1, dir, fields[..i]) == Ok(fs.State())
    {
      InitFilesStep(d1, dir, fields, i);
      var o := InitFileAt(fs, dir + [fields[i]]);
    }
    assert fields[..|fields|] == fields;
  }

  /** `init_adaption(shortname, fields)`: the directory, then a file for each
      chosen field in argument order. The branch for an empty scaffold
      cannot be taken, since the template field is always chosen. */
  method InitAdaption(fs: FileSystem, shortname: string, args: seq<(string, Arg)>) returns (r: Outcome)
    requires fs.Valid()
    modifies fs
    ensures fs.Valid()
    ensures Run(r, fs.State()) == AsRun(old(fs.State()), InitAdaptionResult(old(fs.State()), shortname, args))
  {
    var a := ArgDict(args);
    if "is_exception" !in a.vals {
      return Fail(KeyError("is_exception"));
    }
    var isException := a.vals["is_exception"] == AStr("exc");
    var fields := KindFields(isException);
    var dir := AdaptionDir(shortname);
    ghost var d0 := fs.State();
    r := fs.MakeDirectories(dir);
    if r.Fail? {
      return;
    }
    MakeDirsMakes(d0, dir);
    var forced := Forced(a, isException);
    var isEmpty := InitChosen(fs, dir, forced, fields);
    ChosenExactly(a, isException, Template(isException));
    if isEmpty {
      assert false;
    }
    r := Pass;
  }

  /** The loop of `init_adaption`: a field file for every argument, in
      order, that names a field of the kind and is truthy; `isEmpty` tells
      whether there was none. */
  method InitChosen(fs: FileSystem, dir: Path, forced: Dict<string, Arg>, fields: seq<string>) returns (isEmpty: bool)
    requires fs.Valid() && dir in fs.dirs && Valid(forced)
    modifies fs
    ensures fs.Valid()
    ensures InitFiles(old(fs.State()), dir, Pick(forced.keys, forced.vals, fields)) == Ok(fs.State())
    ensures isEmpty <==> Pick(forced.keys, forced.vals, fields) == []
  {
    isEmpty := true;
    ghost var d1 := fs.State();
    for i := 0 to |forced.keys|
      invariant fs.Valid()
      invariant InitFiles(d1, dir, Pick(forced.keys[..i], forced.vals, fields)) == Ok(fs.State())
      invariant isEmpty <==> Pick(forced.keys[..i], forced.vals, fields) == []
    {
      var field := forced.keys[i];
      assert field in forced.vals;
      ChosenStep(d1, dir, forced.keys, forced.vals, fields, i);
      if field in fields && Truthy(forced.vals[field]) {
        var o := InitFileAt(fs, dir + [field]);
        isEmpty := false;
      }
    }
    assert forced.keys[..|forced.keys|] == forced.keys;
  }

  /** The field loop of `add_custom`: each license field file read in turn
      (`seeAlso` split into lines), stored, and the record re-stripped; then
      `licenseId` is set, `licenseText` being always present. */
  method AssembleCustom(fs: FileSystem, shortname: string) returns (r: Result<Dict<string, Json>>)
    ensures r == CustomRecordAt(fs.State(), shortname)
  {
    var read := ReadFields(fs, CustomDir(shortname), LicenseFields);
    if read.Err? {
      return Err(read.error);
    }
    var dic := read.value;
    ghost var texts := ReadTexts(fs.State(), CustomDir(shortname), LicenseFields).value;
    OverlayValue(Empty(), LicenseFields, texts, "licenseText");
    if "licenseText" in dic.vals {
      dic := Set(dic, "licenseId", JStr(shortname));
    } else {
      assert false;
    }
    return Ok(dic);
  }

  /** The field loop of `add_custom`: each field file read in turn, stored
      into the record, and the record re-stripped. */
  method ReadFields(fs: FileSystem, dir: Path, fields: seq<string>) returns (r: Result<Dict<string, Json>>)
    ensures ReadTexts(fs.State(), dir, fields).Err? ==> r == Err(ReadTexts(fs.State(), dir, fields).error)
    ensures ReadTexts(fs.State(), dir, fields).Ok? ==>
      r == Ok(Overlay(Empty(), fields, ReadTexts(fs.State(), dir, fields).value))
  {
    var dic: Dict<string, Json> := Empty();
    ghost var texts: seq<string> := [];
    for i := 0 to |fields|
      invariant ReadTexts(fs.State(), dir, fields[..i]) == Ok(texts)
      invariant dic == Overlay(Empty(), fields[..i], texts)
    {
      var field := fields[i];
      var read := fs.ReadText(dir + [field]);
      if read.Err? {
        ReadTextsFirstError(fs.State(), dir, fields, i);
        return Err(read.error);
      }
      var value := FieldValue(field, read.value);
      ReadFieldsStep(fs.State(), dir, fields, i, texts);
      dic := Set(dic, field, value);
      dic := Restrip(dic);
      texts := texts + [read.value];
    }
    assert fields[..|fields|] == fields;
    return Ok(dic);
  }

  /** One more field file read by the field loop of `add_custom`. */
  lemma ReadFieldsStep(d: Disk, dir: Path, fields: seq<string>, i: nat, texts: seq<string>)
    requires i < |fields| && ReadTexts(d, dir, fields[..i]) == Ok(texts) && TextAt(d, dir + [fields[i]]).Ok?
    ensures var f, t := fields[i], TextAt(d, dir + [fields[i]]).value;
      && ReadTexts(d, dir, fields[..i + 1]) == Ok(texts + [t])
      && Overlay(Empty(), fields[..i + 1], texts + [t]) == Restripped(Set(Overlay(Empty(), fields[..i], texts), f, FieldValue(f, t)))
  {
    var f, t := fields[i], TextAt(d, dir + [fields[i]]).value;
    assert fields[..i + 1] == fields[..i] + [f];
    ReadTextsSnoc(d, dir, fields[..i], f, texts);
    OverlaySnoc(Empty(), fields[..i], texts, f, t);
  }

  /** `_update_references(fields)`. */
  method UpdateReferencesFile(fs: FileSystem, fields: Dict<string, Json>) returns (r: Outcome)
    requires fs.Valid()
    modifies fs
    ensures fs.Valid()
    ensures Run(r, fs.State()) == AsRun(old(fs.State()), ReferencesWritten(old(fs.State()), fields))
  {
    var loaded := fs.Load(CustomIndex);
    if loaded.Err? {
      return Fail(loaded.error);
    }
    var doc := loaded.value;
    var listed := Get(doc, "licenses");
    if listed.Err? {
      return Fail(listed.error);
    }
    var entries := Iterate(listed.value);
    if entries.Err? {
      return Fail(entries.error);
    }
    var index := BuildIndex(entries.value, "name");
    if index.Err? {
      return Fail(index.error);
    }
    var entry := ReferenceEntry(fields);
    if entry.Err? {
      return Fail(entry.error);
    }
    var name := fields.vals["name"];
    if !Hashable(name) {
      return Fail(TypeError);
    }
    var licenses := Set(index.value, name, entry.value);
    var doc' := JObj(Set(doc.obj, "licenses", JArr(Values(licenses))));
    r := fs.WriteFile(CustomIndex, Doc(doc'));
  }

  /** `add_custom` for one short name. */
  method AddCustomEntry(fs: FileSystem, shortname: string) returns (r: Outcome)
    requires fs.Valid()
    modifies fs
    ensures fs.Valid()
    ensures Run(r, fs.State()) == AddCustomOne(old(fs.State()), shortname)
  {
    var record := AssembleCustom(fs, shortname);
    if record.Err? {
      return Fail(record.error);
    }
    r := UpdateReferencesFile(fs, record.value);
    if r.Fail? {
      return;
    }
    r := fs.WriteFile(CustomRecordPath(shortname), Doc(JObj(record.value)));
  }

  /** `add_custom(shortname)`: the given short name, or, without one, every
      entry of `json/custom/` not ending in `.json`, in the order the system
      lists them (returned as `listing`). */
  method AddCustom(fs: FileSystem, shortname: Option<string>) returns (r: Outcome, ghost listing: seq<string>)
    requires fs.Valid()
    modifies fs
    ensures fs.Valid()
    ensures shortname.Some? ==> Run(r, fs.State()) == AddCustomAll(old(fs.State()), [shortname.value])
    ensures shortname.None? && Listing(old(fs.State()), CustomRoot).Err? ==>
      r == Fail(Listing(old(fs.State()), CustomRoot).error) && fs.State() == old(fs.State())
    ensures shortname.None? && Listing(old(fs.State()), CustomRoot).Ok? ==>
      && Enumerates(listing, Listing(old(fs.State()), CustomRoot).value)
      && Run(r, fs.State()) == AddCustomAll(old(fs.State()), Unassembled(listing))
  {
    var names: seq<string>;
    if shortname.None? {
      var listed := fs.ListDir(CustomRoot);
      if listed.Err? {
        return Fail(listed.error), [];
      }
      listing := listed.value;
      names := Unassembled(listed.value);
    } else {
      listing := [];
      names := [shortname.value];
    }
    r := AddCustomEach(fs, names);
  }

  /** The loop of `add_custom`: each name in turn, stopping at the first
      failure. */
  method AddCustomEach(fs: FileSystem, names: seq<string>) returns (r: Outcome)
    requires fs.Valid()
    modifies fs
    ensures fs.Valid()
    ensures Run(r, fs.State()) == AddCustomAll(old(fs.State()), names)
  {
    ghost var d0 := fs.State();
    for i := 0 to |names|
      invariant fs.Valid()
      invariant AddCustomAll(d0, names[..i]) == Run(Pass, fs.State())
    {
      assert names[..i + 1][..i] == names[..i];
      r := AddCustomEntry(fs, names[i]);
      if r.Fail? {
        RunEachStops(d0, names, i + 1, AddCustomOne);
        return;
      }
    }
    assert names[..|names|] == names;
    r := Pass;
  }

  /** The field loop of `add_adaption`: each field of the kind whose file
      exists is read, stored into the canonical record, and the record
      re-stripped. */
  method OverlayFields(fs: FileSystem, dir: Path, canon: Json, fields: seq<string>) returns (r: Result<Json>)
    requires DocValid(canon)
    ensures r == Overlaid(fs.State(), dir, canon, Present(fs.State(), dir, fields))
    ensures r.Ok? ==> DocValid(r.value)
  {
    ghost var d := fs.State();
    var dic := canon;
    ghost var texts: seq<string> := [];
    for i := 0 to |fields|
      invariant OverlayLoop(d, dir, canon, fields[..i], dic, texts)
    {
      var field := fields[i];
      var found := fs.IsPresent(dir + [field]);
      if !found {
        OverlaySkip(d, dir, canon, fields, i, dic, texts);
        continue;
      }
      var read := fs.ReadText(dir + [field]);
      if read.Err? {
        OverlayReadFails(d, dir, canon, fields, i, dic, texts);
        return Err(read.error);
      }
      if !dic.JObj? {
        OverlayNotDict(d, dir, canon, fields, i, dic, texts);
        return Err(TypeError);
      }
      var value := FieldValue(field, read.value);
      var obj := Set(dic.obj, field, value);
      obj := Restrip(obj);
      OverlayTake(d, dir, canon, fields, i, dic, texts);
      dic := JObj(obj);
      texts := texts + [read.value];
    }
    assert fields[..|fields|] == fields;
    return Ok(dic);
  }

  /** What the field loop of `add_adaption` has built after reading the
      files of `done`: the texts of the present ones, and the canonical
      record with them laid over it. */
  ghost predicate OverlayLoop(d: Disk, dir: Path, canon: Json, done: seq<string>, dic: Json, texts: seq<string>) {
    var present := Present(d, dir, done);
    && ReadTexts(d, dir, present) == Ok(texts)
    && DocValid(canon) && DocValid(dic)
    && (present == [] ==> dic == canon)
    && (present != [] ==> canon.JObj? && dic == JObj(Overlay(canon.obj, present, texts)))
    && (present != [] ==> Overlaid(d, dir, canon, present) == Ok(dic))
  }

  lemma OverlaySkip(d: Disk, dir: Path, canon: Json, fields: seq<string>, i: nat, dic: Json, texts: seq<string>)
    requires i < |fields| && !Exists(d, dir + [fields[i]])
    requires OverlayLoop(d, dir, canon, fields[..i], dic, texts)
    ensures OverlayLoop(d, dir, canon, fields[..i + 1], dic, texts)
  {
    var done := fields[..i + 1];
    assert done[..i] == fields[..i];
    assert Present(d, dir, done) == Present(d, dir, fields[..i]) + [];
    assert Present(d, dir, fields[..i]) + [] == Present(d, dir, fields[..i]);
  }

  lemma OverlayTake(d: Disk, dir: Path, canon: Json, fields: seq<string>, i: nat, dic: Json, texts: seq<string>)
    requires i < |fields| && Exists(d, dir + [fields[i]]) && TextAt(d, dir + [fields[i]]).Ok?
    requires OverlayLoop(d, dir, canon, fields[..i], dic, texts) && dic.JObj?
    ensures var f, t := fields[i], TextAt(d, dir + [fields[i]]).value;
      OverlayLoop(d, dir, canon, fields[..i + 1], JObj(Restripped(Set(dic.obj, f, FieldValue(f, t)))), texts + [t])
  {
    var f, t := fields[i], TextAt(d, dir + [fields[i]]).value;
    var before := Present(d, dir, fields[..i]);
    PresentTake(d, dir, fields, i);
    ReadTextsSnoc(d, dir, before, f, texts);
    OverlaySnoc(canon.obj, before, texts, f, t);
    if before == [] {
      assert dic == canon;
    }
  }

  lemma PresentTake(d: Disk, dir: Path, fields: seq<string>, i: nat)
    requires i < |fields| && Exists(d, dir + [fields[i]])
    ensures Present(d, dir, fields[..i + 1]) == Present(d, dir, fields[..i]) + [fields[i]]
  {
    assert fields[..i + 1][..i] == fields[..i];
  }

  lemma ReadTextsSnoc(d: Disk, dir: Path, fields: seq<string>, f: string, texts: seq<string>)
    requires ReadTexts(d, dir, fields) == Ok(texts) && TextAt(d, dir + [f]).Ok?
    ensures ReadTexts(d, dir, fields + [f]) == Ok(texts + [TextAt(d, dir + [f]).value])
  {
    assert (fields + [f])[..|fields|] == fields;
  }

  lemma OverlayReadFails(d: Disk, dir: Path, canon: Json, fields: seq<string>, i: nat, dic: Json, texts: seq<string>)
    requires i < |fields| && Exists(d, dir + [fields[i]]) && TextAt(d, dir + [fields[i]]).Err?
    requires OverlayLoop(d, dir, canon, fields[..i], dic, texts)
    ensures Overlaid(d, dir, canon, Present(d, dir, fields)) == Err(TextAt(d, dir + [fields[i]]).error)
  {
    FirstUnreadable(d, dir, canon, fields, i, Present(d, dir, fields[..i]));
  }

  /** The first present field file that cannot be read fails the overlay. */
  lemma FirstUnreadable(d: Disk, dir: Path, canon: Json, fields: seq<string>, i: nat, before: seq<string>)
    requires i < |fields| && Exists(d, dir + [fields[i]]) && TextAt(d, dir + [fields[i]]).Err?
    requires before == Present(d, dir, fields[..i]) && ReadTexts(d, dir, before).Ok?
    requires before != [] ==> canon.JObj?
    ensures Overlaid(d, dir, canon, Present(d, dir, fields)) == Err(TextAt(d, dir + [fields[i]]).error)
  {
    PresentPrefix(d, dir, fields, i + 1);
    assert fields[..i + 1][..i] == fields[..i];
    var present := Present(d, dir, fields);
    var upto := Present(d, dir, fields[..i + 1]);
    assert upto == before + [fields[i]];
    assert present[..|upto|] == upto;
    assert present[|before|] == fields[i];
    if before == [] {
      assert present[0] == fields[i];
    } else {
      assert present[..|before|] == before;
      ReadTextsFirstError(d, dir, present, |before|);
      assert present[0] == before[0];
      assert TextAt(d, dir + [present[0]]).Ok?;
    }
  }

  lemma OverlayNotDict(d: Disk, dir: Path, canon: Json, fields: seq<string>, i: nat, dic: Json, texts: seq<string>)
    requires i < |fields| && Exists(d, dir + [fields[i]]) && TextAt(d, dir + [fields[i]]).Ok?
    requires OverlayLoop(d, dir, canon, fields[..i], dic, texts) && !dic.JObj?
    ensures Overlaid(d, dir, canon, Present(d, dir, fields)) == Err(TypeError)
  {
    PresentPrefix(d, dir, fields, i + 1);
    assert fields[..i + 1][..i] == fields[..i];
    assert Present(d, dir, fields[..i + 1]) == Present(d, dir, fields[..i]) + [fields[i]];
  }

  /** Reading the fields one by one meets the present ones in order. */
  lemma {:induction false} PresentPrefix(d: Disk, dir: Path, fields: seq<string>, i: nat)
    requires i <= |fields|
    ensures |Present(d, dir, fields[..i])| <= |Present(d, dir, fields)|
    ensures Present(d, dir, fields)[..|Present(d, dir, fields[..i])|] == Present(d, dir, fields[..i])
    decreases |fields|
  {
    if i == |fields| {
      assert fields[..i] == fields;
    } else {
      var n := |fields| - 1;
      assert fields[..n][..i] == fields[..i];
      PresentPrefix(d, dir, fields[..n], i);
    }
  }

  /** `_update_adaption(shortname, note)`. */
  method UpdateAdaptionFile(fs: FileSystem, shortname: string, note: string) returns (r: Outcome)
    requires fs.Valid()
    modifies fs
    ensures fs.Valid()
    ensures Run(r, fs.State()) == AsRun(old(fs.State()), AdaptionsWritten(old(fs.State()), shortname, note))
  {
    var loaded := fs.Load(AdaptionIndex);
    if loaded.Err? {
      return Fail(loaded.error);
    }
    var doc := loaded.value;
    var listed := Get(doc, "adaptions");
    if listed.Err? {
      return Fail(listed.error);
    }
    var entries := Iterate(listed.value);
    if entries.Err? {
      return Fail(entries.error);
    }
    var index := BuildIndex(entries.value, "licenseId");
    if index.Err? {
      return Fail(index.error);
    }
    var id := JStr(shortname);
    var adaptions: Dict<Json, Json>;
    if id in index.value.vals {
      var appended := AppendNote(index.value.vals[id], note);
      if appended.Err? {
        return Fail(appended.error);
      }
      adaptions := Set(index.value, id, appended.value);
    } else {
      adaptions := Set(index.value, id, NewAdaption(shortname, note));
    }
    var doc' := JObj(Set(doc.obj, "adaptions", JArr(Values(adaptions))));
    r := fs.WriteFile(AdaptionIndex, Doc(doc'));
  }

  /** `add_adaption(shortname, note)`. */
  method AddAdaption(fs: FileSystem, shortname: string, note: string) returns (r: Outcome)
    requires fs.Valid()
    modifies fs
    ensures fs.Valid()
    ensures Run(r, fs.State()) == AddAdaptionResult(old(fs.State()), shortname, note)
  {
    var dir := AdaptionDir(shortname);
    var listed := fs.ListDir(dir);
    if listed.Err? {
      return Fail(listed.error);
    }
    var isException := "licenseExceptionTemplate" in listed.value;
    var canon := fs.Load(CanonicalPath(shortname, isException));
    if canon.Err? {
      return Fail(canon.error);
    }
    var record := OverlayFields(fs, dir, canon.value, KindFields(isException));
    if record.Err? {
      return Fail(record.error);
    }
    r := UpdateAdaptionFile(fs, shortname, note);
    if r.Fail? {
      return;
    }
    r := fs.WriteFile(AdaptionRecordPath(shortname), Doc(record.value));
  }
}
