/** The two aggregate index files and how the tool rewrites them:
    `custom.json` (entries keyed by `name`, one per custom license) and
    `adaptions.json` (entries keyed by `licenseId`, each with its notes).
    Both are read whole, turned into a dict keyed by an entry field, changed
    at one key, and written back as the dict's values in dict order. */
module Indexes {
  import opened PyDict
  import opened Json

  /** `e[field]` used as a dict key: `e` must be an object holding `field`,
      and the value must be hashable. */
  function KeyOf(e: Json, field: string): (r: Result<Json>)
    ensures r.Ok? <==> e.JObj? && field in e.obj.vals && Hashable(e.obj.vals[field])
    ensures r.Ok? ==> r.value == e.obj.vals[field]
  {
    var k :- Get(e, field);
    if Hashable(k) then Ok(k) else Err(TypeError)
  }

  /** The keys `{e[field]: e for e in entries}` computes, in list order; the
      first entry without one raises. */
  function KeysOf(entries: seq<Json>, field: string): (r: Result<seq<Json>>)
    ensures r.Ok? <==> forall i :: 0 <= i < |entries| ==> KeyOf(entries[i], field).Ok?
    ensures r.Ok? ==> |r.value| == |entries|
    ensures r.Ok? ==> forall i :: 0 <= i < |entries| ==> KeyOf(entries[i], field) == Ok(r.value[i])
    decreases |entries|
  {
    if entries == [] then Ok([])
    else
      var n := |entries| - 1;
      var ks :- KeysOf(entries[..n], field);
      var k :- KeyOf(entries[n], field);
      Ok(ks + [k])
  }

  /** When the entries before `i` all have keys and entry `i` has none, the
      comprehension fails with entry `i`'s error. */
  lemma {:induction false} KeysOfFirstError(entries: seq<Json>, field: string, i: nat)
    requires i < |entries|
    requires KeysOf(entries[..i], field).Ok? && KeyOf(entries[i], field).Err?
    ensures KeysOf(entries, field) == Err(KeyOf(entries[i], field).error)
    decreases |entries|
  {
    var n := |entries| - 1;
    if i == n {
      assert entries[..n] == entries[..i];
    } else {
      assert entries[..n][..i] == entries[..i];
      KeysOfFirstError(entries[..n], field, i);
    }
  }

  /** `{e[field]: e for e in entries}`. */
  function Keyed(entries: seq<Json>, field: string): (r: Result<Dict<Json, Json>>)
    ensures r.Ok? ==> Valid(r.value)
  {
    var ks :- KeysOf(entries, field);
    Ok(FromPairs(ks, entries))
  }

  /** The dict comprehension as the loop Python runs: one assignment per entry. */
  method BuildIndex(entries: seq<Json>, field: string) returns (r: Result<Dict<Json, Json>>)
    ensures r == Keyed(entries, field)
  {
    var d := Empty();
    var i := 0;
    while i < |entries|
      invariant 0 <= i <= |entries|
      invariant KeysOf(entries[..i], field).Ok?
      invariant d == FromPairs(KeysOf(entries[..i], field).value, entries[..i])
    {
      var k := KeyOf(entries[i], field);
      if k.Err? {
        KeysOfFirstError(entries, field, i);
        return Err(k.error);
      }
      assert entries[..i + 1][..i] == entries[..i];
      d := Set(d, k.value, entries[i]);
      i := i + 1;
    }
    assert entries[..i] == entries;
    return Ok(d);
  }

  /** Every value of `d` is an object whose `field` is its key. */
  ghost predicate KeyedBy(d: Dict<Json, Json>, field: string) {
    forall k :: k in d.vals ==> KeyOf(d.vals[k], field) == Ok(k)
  }

  lemma KeyedIsKeyedBy(entries: seq<Json>, field: string)
    requires Keyed(entries, field).Ok?
    ensures KeyedBy(Keyed(entries, field).value, field)
  {
    var ks := KeysOf(entries, field).value;
    FromPairsKeys(ks, entries);
    forall k | k in Keyed(entries, field).value.vals
      ensures KeyOf(Keyed(entries, field).value.vals[k], field) == Ok(k)
    {
      FromPairsLastWins(ks, entries, k);
    }
  }

  /** Listing a keyed dict's values gives back its keys, so they are distinct. */
  lemma ValuesKeyed(d: Dict<Json, Json>, field: string)
    requires Valid(d) && KeyedBy(d, field)
    ensures KeysOf(Values(d), field) == Ok(d.keys)
  {
    var vs := Values(d);
    forall i | 0 <= i < |vs| ensures KeyOf(vs[i], field) == Ok(d.keys[i]) {
      assert d.keys[i] in d.vals;
    }
    var ks := KeysOf(vs, field).value;
    assert forall i :: 0 <= i < |ks| ==> ks[i] == d.keys[i] by {
      forall i | 0 <= i < |ks| ensures ks[i] == d.keys[i] {
        assert KeyOf(vs[i], field) == Ok(ks[i]);
      }
    }
    assert ks == d.keys;
  }

  /** Writing a keyed dict's values out and reading them back rebuilds the
      same dict. */
  lemma KeyedValues(d: Dict<Json, Json>, field: string)
    requires Valid(d) && KeyedBy(d, field)
    ensures Keyed(Values(d), field) == Ok(d)
  {
    ValuesKeyed(d, field);
    var vs := Values(d);
    assert Keyed(vs, field) == Ok(FromPairs(d.keys, vs));
    FromPairsRebuilds(d);
  }

  /** `{e[field]: e for e in doc[list]}`. */
  function IndexOf(doc: Json, list: string, field: string): (r: Result<Dict<Json, Json>>)
    ensures r.Ok? ==> doc.JObj? && Valid(r.value)
  {
    var listed :- Get(doc, list);
    var entries :- Iterate(listed);
    Keyed(entries, field)
  }

  /** `doc[list] = list(index.values())`. */
  function Relisted(doc: Json, list: string, index: Dict<Json, Json>): (r: Json)
    requires doc.JObj? && Valid(index)
    ensures Get(r, list) == Ok(JArr(Values(index)))
  {
    JObj(Set(doc.obj, list, JArr(Values(index))))
  }

  lemma IndexOfKeyedBy(doc: Json, list: string, field: string)
    requires IndexOf(doc, list, field).Ok?
    ensures KeyedBy(IndexOf(doc, list, field).value, field)
  {
    KeyedIsKeyedBy(Iterate(Get(doc, list).value).value, field);
  }

  /** Listing an index back into the document and reading it again gives
      the same index. */
  lemma RelistedIndex(doc: Json, list: string, field: string, index: Dict<Json, Json>)
    requires doc.JObj? && Valid(index) && KeyedBy(index, field)
    ensures IndexOf(Relisted(doc, list, index), list, field) == Ok(index)
  {
    KeyedValues(index, field);
  }

  /** Relisting changes the listed key alone and keeps the document's keys. */
  lemma RelistedFrame(doc: Json, list: string, index: Dict<Json, Json>)
    requires doc.JObj? && Valid(index) && list in doc.obj.vals
    ensures var r := Relisted(doc, list, index);
      && r.JObj? && r.obj.keys == doc.obj.keys
      && forall k :: k in doc.obj.vals && k != list ==> k in r.obj.vals && r.obj.vals[k] == doc.obj.vals[k]
  {
  }

  /** A relisted index is unique by `field`, and its listed keys are the
      index's keys in order. */
  lemma RelistedUnique(doc: Json, list: string, field: string, index: Dict<Json, Json>)
    requires doc.JObj? && Valid(index) && KeyedBy(index, field)
    ensures var xs := Get(Relisted(doc, list, index), list).value.items;
      KeysOf(xs, field) == Ok(index.keys) && Distinct(index.keys)
  {
    ValuesKeyed(index, field);
  }

  // ---------------------------------------------------------------------
  // custom.json

  /** The entry `_update_references` stores for a record: `reference` is the
      record's `seeAlso` up to its first item, `seeAlso` the items after it. */
  function ReferenceEntry(fields: Dict<string, Json>): (r: Result<Json>)
  {
    var seeAlso :- Lookup(fields, "seeAlso");
    var reference :- SliceHead(seeAlso);
    var name :- Lookup(fields, "name");
    var id :- Lookup(fields, "licenseId");
    var rest :- SliceTail(seeAlso);
    Ok(JObj(Dict(["reference", "name", "licenseId", "seeAlso"],
                 map["reference" := reference, "name" := name, "licenseId" := id, "seeAlso" := rest])))
  }

  /** The new `custom.json` after adding `fields`: its `licenses` list keyed by
      `name`, the record's entry stored under its name, listed back in dict order. */
  function UpdateReferences(doc: Json, fields: Dict<string, Json>): (r: Result<Json>)
  {
    var index :- IndexOf(doc, "licenses", "name");
    var entry :- ReferenceEntry(fields);
    var name :- Lookup(fields, "name");
    if !Hashable(name) then Err(TypeError)
    else Ok(Relisted(doc, "licenses", Set(index, name, entry)))
  }

  /** The index entry splits the record's `seeAlso` list: `reference` is at
      most its first item, and `reference + seeAlso` is the whole list; `name`
      and `licenseId` are copied from the record. */
  lemma ReferenceEntrySplitsSeeAlso(fields: Dict<string, Json>)
    requires "seeAlso" in fields.vals && fields.vals["seeAlso"].JArr?
    requires "name" in fields.vals && "licenseId" in fields.vals
    ensures ReferenceEntry(fields).Ok?
    ensures var e := ReferenceEntry(fields).value;
      && e.JObj? && e.obj.keys == ["reference", "name", "licenseId", "seeAlso"]
      && e.obj.vals["reference"].JArr? && e.obj.vals["seeAlso"].JArr?
      && e.obj.vals["reference"].items + e.obj.vals["seeAlso"].items == fields.vals["seeAlso"].items
      && |e.obj.vals["reference"].items| <= 1
      && e.obj.vals["name"] == fields.vals["name"]
      && e.obj.vals["licenseId"] == fields.vals["licenseId"]
  {
    SliceSplits(fields.vals["seeAlso"]);
  }

  /** The index after storing the record's entry under its name. */
  lemma ReferencesKeyed(doc: Json, fields: Dict<string, Json>)
    requires UpdateReferences(doc, fields).Ok?
    ensures var index := IndexOf(doc, "licenses", "name").value;
      var d := Set(index, Lookup(fields, "name").value, ReferenceEntry(fields).value);
      && UpdateReferences(doc, fields) == Ok(Relisted(doc, "licenses", d))
      && KeyedBy(d, "name")
  {
    var index := IndexOf(doc, "licenses", "name").value;
    IndexOfKeyedBy(doc, "licenses", "name");
    var name, entry := Lookup(fields, "name").value, ReferenceEntry(fields).value;
    assert KeyOf(entry, "name") == Ok(name);
  }

  /** After the update the index is unique by name: every entry has a name,
      no two share one, and the record's name is held by its new entry alone. */
  lemma UpdateReferencesUnique(doc: Json, fields: Dict<string, Json>)
    requires UpdateReferences(doc, fields).Ok?
    ensures var out := UpdateReferences(doc, fields).value;
      && Get(out, "licenses").Ok? && Get(out, "licenses").value.JArr?
      && var xs := Get(out, "licenses").value.items;
         && KeysOf(xs, "name").Ok? && Distinct(KeysOf(xs, "name").value)
         && Lookup(fields, "name").value in KeysOf(xs, "name").value
         && forall i :: 0 <= i < |xs| && KeysOf(xs, "name").value[i] == Lookup(fields, "name").value
              ==> xs[i] == ReferenceEntry(fields).value
  {
    ReferencesKeyed(doc, fields);
    var index := IndexOf(doc, "licenses", "name").value;
    var name, entry := Lookup(fields, "name").value, ReferenceEntry(fields).value;
    var d := Set(index, name, entry);
    RelistedUnique(doc, "licenses", "name", d);
    assert name in d.vals;
  }

  /** On an index whose names are already distinct, the update replaces the
      entry of an existing name where it stands and appends an entry for a
      new name; every other entry stays as it was, in the same order. */
  lemma UpdateReferencesUpsert(doc: Json, fields: Dict<string, Json>, entries: seq<Json>)
    requires UpdateReferences(doc, fields).Ok?
    requires Get(doc, "licenses").Ok? && Iterate(Get(doc, "licenses").value) == Ok(entries)
    requires Distinct(KeysOf(entries, "name").value)
    ensures var ks, name := KeysOf(entries, "name").value, Lookup(fields, "name").value;
      var entry := ReferenceEntry(fields).value;
      var out := UpdateReferences(doc, fields).value;
      && out.JObj? && out.obj.keys == doc.obj.keys
      && (forall k :: k in doc.obj.vals && k != "licenses" ==> out.obj.vals[k] == doc.obj.vals[k])
      && Get(out, "licenses") == Ok(JArr(
           if name in ks then entries[FirstIndex(ks, name) := entry] else entries + [entry]))
  {
    var ks := KeysOf(entries, "name").value;
    var name := Lookup(fields, "name").value;
    var entry := ReferenceEntry(fields).value;
    FromPairsDistinct(ks, entries);
    var d := FromPairs(ks, entries);
    assert IndexOf(doc, "licenses", "name") == Ok(d);
    RelistedFrame(doc, "licenses", Set(d, name, entry));
    if name in ks {
      SetExistingValues(d, FirstIndex(ks, name), entry);
    } else {
      FromPairsKeys(ks, entries);
      SetNewValues(d, name, entry);
    }
  }

  /** Indexing the same record twice is indexing it once. */
  lemma UpdateReferencesIdempotent(doc: Json, fields: Dict<string, Json>)
    requires UpdateReferences(doc, fields).Ok?
    ensures UpdateReferences(UpdateReferences(doc, fields).value, fields) == UpdateReferences(doc, fields)
  {
    ReferencesKeyed(doc, fields);
    var index := IndexOf(doc, "licenses", "name").value;
    var name, entry := Lookup(fields, "name").value, ReferenceEntry(fields).value;
    var d := Set(index, name, entry);
    var out := Relisted(doc, "licenses", d);
    RelistedIndex(doc, "licenses", "name", d);
    SetSame(d, name, entry);
    UpdateReferencesOf(out, fields, d);
    RelistedAgain(doc, "licenses", d);
  }

  /** `UpdateReferences` on a document whose index is known. */
  lemma UpdateReferencesOf(doc: Json, fields: Dict<string, Json>, index: Dict<Json, Json>)
    requires IndexOf(doc, "licenses", "name") == Ok(index)
    requires ReferenceEntry(fields).Ok? && Lookup(fields, "name").Ok? && Hashable(Lookup(fields, "name").value)
    ensures UpdateReferences(doc, fields)
      == Ok(Relisted(doc, "licenses", Set(index, Lookup(fields, "name").value, ReferenceEntry(fields).value)))
  {
  }

  lemma RelistedAgain(doc: Json, list: string, index: Dict<Json, Json>)
    requires doc.JObj? && Valid(index)
    ensures Relisted(Relisted(doc, list, index), list, index) == Relisted(doc, list, index)
  {
    var r := Relisted(doc, list, index);
    SetSame(r.obj, list, JArr(Values(index)));
  }

  // ---------------------------------------------------------------------
  // adaptions.json

  /** The entry a first note for `shortname` creates. */
  function NewAdaption(shortname: string, note: string): (e: Json)
    ensures KeyOf(e, "licenseId") == Ok(JStr(shortname))
    ensures Get(e, "notes") == Ok(JArr([JStr(note)]))
  {
    JObj(Dict(["licenseId", "notes"], map["licenseId" := JStr(shortname), "notes" := JArr([JStr(note)])]))
  }

  /** `entry['notes'].append(note)`: only a list has `append`. */
  function AppendNote(entry: Json, note: string): (r: Result<Json>)
  {
    var notes :- Get(entry, "notes");
    if notes.JArr? then Ok(JObj(Set(entry.obj, "notes", JArr(notes.items + [JStr(note)]))))
    else Err(AttributeError)
  }

  /** Appending a note touches the entry's `notes` list alone, at its end. */
  lemma AppendNoteExtends(entry: Json, note: string)
    requires AppendNote(entry, note).Ok?
    ensures var e := AppendNote(entry, note).value;
      && entry.JObj? && e.JObj? && e.obj.keys == entry.obj.keys
      && Get(e, "notes") == Ok(JArr(Get(entry, "notes").value.items + [JStr(note)]))
      && forall k :: k in entry.obj.vals && k != "notes" ==> k in e.obj.vals && e.obj.vals[k] == entry.obj.vals[k]
  {
  }

  /** `adaptions[shortname]` gets `note` appended, or a new entry. */
  function AddNote(index: Dict<Json, Json>, shortname: string, note: string): (r: Result<Dict<Json, Json>>)
    ensures Valid(index) && r.Ok? ==> Valid(r.value)
  {
    var id := JStr(shortname);
    if id in index.vals then
      var e :- AppendNote(index.vals[id], note);
      Ok(Set(index, id, e))
    else Ok(Set(index, id, NewAdaption(shortname, note)))
  }

  /** Noting keeps an index keyed by `licenseId` keyed, and holds the id. */
  lemma AddNoteKeyed(index: Dict<Json, Json>, shortname: string, note: string)
    requires Valid(index) && KeyedBy(index, "licenseId") && AddNote(index, shortname, note).Ok?
    ensures KeyedBy(AddNote(index, shortname, note).value, "licenseId")
    ensures JStr(shortname) in AddNote(index, shortname, note).value.vals
  {
    var id := JStr(shortname);
    if id in index.vals {
      AppendNoteExtends(index.vals[id], note);
      assert KeyOf(AddNote(index, shortname, note).value.vals[id], "licenseId") == Ok(id);
    }
  }

  /** The new `adaptions.json` after noting `note` against `shortname`. */
  function UpdateAdaption(doc: Json, shortname: string, note: string): (r: Result<Json>)
  {
    var index :- IndexOf(doc, "adaptions", "licenseId");
    var updated :- AddNote(index, shortname, note);
    Ok(Relisted(doc, "adaptions", updated))
  }

  /** On an index whose ids are distinct, an existing id gets the note at the
      end of its `notes` in place and the list keeps its length; a new id
      gets a one-note entry at the end and the list grows by one. Nothing
      else changes. */
  lemma UpdateAdaptionUpsert(doc: Json, shortname: string, note: string, entries: seq<Json>)
    requires UpdateAdaption(doc, shortname, note).Ok?
    requires Get(doc, "adaptions").Ok? && Iterate(Get(doc, "adaptions").value) == Ok(entries)
    requires Distinct(KeysOf(entries, "licenseId").value)
    ensures var ks := KeysOf(entries, "licenseId").value;
      var out := UpdateAdaption(doc, shortname, note).value;
      && out.JObj? && out.obj.keys == doc.obj.keys
      && (forall k :: k in doc.obj.vals && k != "adaptions" ==> out.obj.vals[k] == doc.obj.vals[k])
      && Get(out, "adaptions").Ok? && Get(out, "adaptions").value.JArr?
      && var xs := Get(out, "adaptions").value.items;
         && (JStr(shortname) in ks ==>
               var p := FirstIndex(ks, JStr(shortname));
               AppendNote(entries[p], note).Ok? && xs == entries[p := AppendNote(entries[p], note).value])
         && (JStr(shortname) !in ks ==> xs == entries + [NewAdaption(shortname, note)])
         && (|xs| == |entries| + 1 <==> JStr(shortname) !in ks)
  {
    var ks := KeysOf(entries, "licenseId").value;
    var id := JStr(shortname);
    FromPairsDistinct(ks, entries);
    FromPairsKeys(ks, entries);
    var d := FromPairs(ks, entries);
    assert IndexOf(doc, "adaptions", "licenseId") == Ok(d);
    var updated := AddNote(d, shortname, note).value;
    RelistedFrame(doc, "adaptions", updated);
    if id in ks {
      var p := FirstIndex(ks, id);
      assert d.keys[p] == id;
      assert Values(d)[p] == d.vals[id];
      SetExistingValues(d, p, AppendNote(d.vals[id], note).value);
    } else {
      SetNewValues(d, id, NewAdaption(shortname, note));
    }
  }

  /** After the update the index is unique by `licenseId`, and `shortname` is
      among the ids. */
  lemma UpdateAdaptionUnique(doc: Json, shortname: string, note: string)
    requires UpdateAdaption(doc, shortname, note).Ok?
    ensures var out := UpdateAdaption(doc, shortname, note).value;
      && Get(out, "adaptions").Ok? && Get(out, "adaptions").value.JArr?
      && var xs := Get(out, "adaptions").value.items;
         && KeysOf(xs, "licenseId").Ok? && Distinct(KeysOf(xs, "licenseId").value)
         && JStr(shortname) in KeysOf(xs, "licenseId").value
  {
    var index := IndexOf(doc, "adaptions", "licenseId").value;
    IndexOfKeyedBy(doc, "adaptions", "licenseId");
    var updated := AddNote(index, shortname, note).value;
    AddNoteKeyed(index, shortname, note);
    RelistedUnique(doc, "adaptions", "licenseId", updated);
  }

  /** `UpdateAdaption` on a document whose index is known. */
  lemma UpdateAdaptionOf(doc: Json, shortname: string, note: string, index: Dict<Json, Json>)
    requires IndexOf(doc, "adaptions", "licenseId") == Ok(index) && AddNote(index, shortname, note).Ok?
    ensures UpdateAdaption(doc, shortname, note) == Ok(Relisted(doc, "adaptions", AddNote(index, shortname, note).value))
  {
  }

  /** Notes accumulate in call order: noting `a` and then `b` against an id
      the index does not hold yet leaves one entry for it with notes `[a, b]`. */
  lemma NotesAccumulate(doc: Json, shortname: string, a: string, b: string)
    requires UpdateAdaption(doc, shortname, a).Ok?
    requires JStr(shortname) !in IndexOf(doc, "adaptions", "licenseId").value.vals
    ensures var doc1 := UpdateAdaption(doc, shortname, a).value;
      && UpdateAdaption(doc1, shortname, b).Ok?
      && var index := IndexOf(UpdateAdaption(doc1, shortname, b).value, "adaptions", "licenseId");
         && index.Ok? && JStr(shortname) in index.value.vals
         && Get(index.value.vals[JStr(shortname)], "notes") == Ok(JArr([JStr(a), JStr(b)]))
  {
    FirstNote(doc, shortname, a);
    SecondNote(UpdateAdaption(doc, shortname, a).value, shortname, a, b);
  }

  /** A first note for an id creates its entry, and the index stays keyed. */
  lemma FirstNote(doc: Json, shortname: string, a: string)
    requires UpdateAdaption(doc, shortname, a).Ok?
    requires JStr(shortname) !in IndexOf(doc, "adaptions", "licenseId").value.vals
    ensures var index := IndexOf(UpdateAdaption(doc, shortname, a).value, "adaptions", "licenseId");
      && index.Ok? && KeyedBy(index.value, "licenseId")
      && JStr(shortname) in index.value.vals && index.value.vals[JStr(shortname)] == NewAdaption(shortname, a)
  {
    var index := IndexOf(doc, "adaptions", "licenseId").value;
    IndexOfKeyedBy(doc, "adaptions", "licenseId");
    var updated := AddNote(index, shortname, a).value;
    AddNoteKeyed(index, shortname, a);
    UpdateAdaptionOf(doc, shortname, a, index);
    RelistedIndex(doc, "adaptions", "licenseId", updated);
  }

  /** A second note is appended after the first. */
  lemma SecondNote(doc: Json, shortname: string, a: string, b: string)
    requires var index := IndexOf(doc, "adaptions", "licenseId");
      && index.Ok? && KeyedBy(index.value, "licenseId")
      && JStr(shortname) in index.value.vals && index.value.vals[JStr(shortname)] == NewAdaption(shortname, a)
    ensures UpdateAdaption(doc, shortname, b).Ok?
    ensures var index := IndexOf(UpdateAdaption(doc, shortname, b).value, "adaptions", "licenseId");
      && index.Ok? && JStr(shortname) in index.value.vals
      && Get(index.value.vals[JStr(shortname)], "notes") == Ok(JArr([JStr(a), JStr(b)]))
  {
    var index := IndexOf(doc, "adaptions", "licenseId").value;
    var id := JStr(shortname);
    SecondNoteEntry(shortname, a, b);
    var e := AppendNote(NewAdaption(shortname, a), b).value;
    assert AddNote(index, shortname, b) == Ok(Set(index, id, e));
    var updated := Set(index, id, e);
    AddNoteKeyed(index, shortname, b);
    UpdateAdaptionOf(doc, shortname, b, index);
    RelistedIndex(doc, "adaptions", "licenseId", updated);
  }

  lemma SecondNoteEntry(shortname: string, a: string, b: string)
    ensures AppendNote(NewAdaption(shortname, a), b).Ok?
    ensures Get(AppendNote(NewAdaption(shortname, a), b).value, "notes") == Ok(JArr([JStr(a), JStr(b)]))
  {
    AppendNoteExtends(NewAdaption(shortname, a), b);
    assert [JStr(a)] + [JStr(b)] == [JStr(a), JStr(b)];
  }
}
