/** The per-license records the tool assembles from field files: the field
    lists of the two kinds, the value a field file contributes, the
    re-stripping pass that follows every assignment, and the overlay of
    field files onto an existing record. */
module Records {
  import opened PyText
  import opened PyDict
  import opened Json

  const LicenseFields: seq<string> :=
    ["name", "licenseText", "standardLicenseHeader", "standardLicenseTemplate",
     "standardLicenseHeaderTemplate", "seeAlso"]
  const ExceptionFields: seq<string> :=
    ["name", "licenseExceptionText", "licenseExceptionTemplate", "seeAlso"]

  /** The field list of an exception or of a license. */
  function KindFields(isException: bool): seq<string> {
    if isException then ExceptionFields else LicenseFields
  }

  /** The template field `init_adaption` always initialises. */
  function Template(isException: bool): string {
    if isException then "licenseExceptionTemplate" else "standardLicenseTemplate"
  }

  /** The lines of a `seeAlso` file as JSON strings. */
  function Lines(text: string): (items: seq<Json>)
    ensures |items| == |SplitLines(text)|
    ensures forall i :: 0 <= i < |items| ==> items[i] == JStr(SplitLines(text)[i])
  {
    seq(|SplitLines(text)|, i requires 0 <= i < |SplitLines(text)| => JStr(SplitLines(text)[i]))
  }

  /** The `seeAlso` lines are strings that, joined, give back the file's
      text without its line breaks, and the re-stripping pass leaves the
      list as it is: no line is stripped. */
  lemma LinesKeepText(text: string)
    ensures forall i :: 0 <= i < |Lines(text)| ==> Lines(text)[i].JStr?
    ensures Concat(seq(|Lines(text)|, i requires 0 <= i < |Lines(text)| => Lines(text)[i].s)) == WithoutBreaks(text)
    ensures StripValue(JArr(Lines(text))) == JArr(Lines(text))
  {
    assert seq(|Lines(text)|, i requires 0 <= i < |Lines(text)| => Lines(text)[i].s) == SplitLines(text);
    SplitLinesLosesOnlyBreaks(text);
  }

  /** What `dic[field] = ...` stores for a field file's text: `seeAlso` is
      split into lines, any other field is the whole text. */
  function FieldValue(field: string, text: string): Json {
    if field == "seeAlso" then JArr(Lines(text)) else JStr(text)
  }

  /** A string value stripped; any other value as it is. */
  function StripValue(v: Json): Json {
    if v.JStr? then JStr(Strip(v.s)) else v
  }

  /** The record after the re-stripping pass: every string value stripped,
      keys and their order unchanged. */
  function Restripped(d: Dict<string, Json>): (r: Dict<string, Json>)
    ensures r.keys == d.keys && r.vals.Keys == d.vals.Keys
    ensures Valid(d) ==> Valid(r)
  {
    Dict(d.keys, map k | k in d.vals :: StripValue(d.vals[k]))
  }

  lemma StripValueIdempotent(v: Json)
    ensures StripValue(StripValue(v)) == StripValue(v)
  {
    if v.JStr? { StripIdempotent(v.s); }
  }

  /** A second pass changes nothing. */
  lemma RestrippedIdempotent(d: Dict<string, Json>)
    ensures Restripped(Restripped(d)) == Restripped(d)
  {
    forall k | k in d.vals ensures Restripped(Restripped(d)).vals[k] == Restripped(d).vals[k] {
      StripValueIdempotent(d.vals[k]);
    }
  }

  /** The pass as the loop runs it: each item visited in dict order, its
      value replaced by its strip when it is a string. */
  method Restrip(d: Dict<string, Json>) returns (r: Dict<string, Json>)
    requires Valid(d)
    ensures r == Restripped(d)
  {
    r := d;
    for i := 0 to |d.keys|
      invariant MappedUpTo(d, r, i, StripValue)
    {
      var k := d.keys[i];
      MappedStep(d, r, i, StripValue);
      var v := r.vals[k];
      if v.JStr? {
        r := Set(r, k, JStr(Strip(v.s)));
      } else {
        SetSame(r, k, v);
      }
    }
    MappedAll(d, r, StripValue);
    assert r.vals == Restripped(d).vals;
  }

  /** The values the field files contribute, field by field. */
  function FieldValues(fields: seq<string>, texts: seq<string>): (vs: seq<Json>)
    requires |fields| == |texts|
    ensures |vs| == |fields|
    ensures forall i :: 0 <= i < |vs| ==> vs[i] == FieldValue(fields[i], texts[i])
  {
    seq(|fields|, i requires 0 <= i < |fields| => FieldValue(fields[i], texts[i]))
  }

  /** The assignments `dic[field] = value` for each field in turn, without
      any stripping. */
  function SetAll(base: Dict<string, Json>, fields: seq<string>, vs: seq<Json>): (d: Dict<string, Json>)
    requires |fields| == |vs|
    ensures Valid(base) ==> Valid(d)
    decreases |fields|
  {
    if fields == [] then base
    else
      var n := |fields| - 1;
      Set(SetAll(base, fields[..n], vs[..n]), fields[n], vs[n])
  }

  /** The record as the field loop leaves it: after each assignment, the
      whole record is re-stripped. */
  function Overlay(base: Dict<string, Json>, fields: seq<string>, texts: seq<string>): (d: Dict<string, Json>)
    requires |fields| == |texts|
    ensures Valid(base) ==> Valid(d)
    decreases |fields|
  {
    if fields == [] then base
    else
      var n := |fields| - 1;
      Restripped(Set(Overlay(base, fields[..n], texts[..n]), fields[n], FieldValue(fields[n], texts[n])))
  }

  /** One more field file laid over: the record assigned its value and re-stripped. */
  lemma OverlaySnoc(base: Dict<string, Json>, fields: seq<string>, texts: seq<string>, f: string, t: string)
    requires |fields| == |texts|
    ensures Overlay(base, fields + [f], texts + [t]) == Restripped(Set(Overlay(base, fields, texts), f, FieldValue(f, t)))
  {
    assert (fields + [f])[..|fields|] == fields;
    assert (texts + [t])[..|texts|] == texts;
  }

  /** Re-stripping before an assignment is subsumed by re-stripping after it. */
  lemma RestrippedSet(d: Dict<string, Json>, k: string, v: Json)
    ensures Restripped(Set(Restripped(d), k, v)) == Restripped(Set(d, k, v))
  {
    var a, b := Restripped(Set(Restripped(d), k, v)), Restripped(Set(d, k, v));
    forall x | x in b.vals ensures a.vals[x] == b.vals[x] {
      if x != k { StripValueIdempotent(d.vals[x]); }
    }
  }

  /** Stripping after every assignment is stripping once at the end: the
      repeated pass in the loop has the effect of a single one. */
  lemma {:induction false} OverlayStripsOnce(base: Dict<string, Json>, fields: seq<string>, texts: seq<string>)
    requires |fields| == |texts| && fields != []
    ensures Overlay(base, fields, texts) == Restripped(SetAll(base, fields, FieldValues(fields, texts)))
    decreases |fields|
  {
    var n := |fields| - 1;
    var vs := FieldValues(fields, texts);
    assert vs[..n] == FieldValues(fields[..n], texts[..n]);
    if n > 0 {
      OverlayStripsOnce(base, fields[..n], texts[..n]);
      RestrippedSet(SetAll(base, fields[..n], vs[..n]), fields[n], vs[n]);
    }
  }

  /** After the assignments, a field holds the value of its last assignment
      and every other key keeps its value. */
  lemma {:induction false} SetAllValue(base: Dict<string, Json>, fields: seq<string>, vs: seq<Json>, k: string)
    requires |fields| == |vs|
    ensures k in SetAll(base, fields, vs).vals <==> k in base.vals || k in fields
    ensures k in fields ==> SetAll(base, fields, vs).vals[k] == vs[LastIndex(fields, k)]
    ensures k !in fields && k in base.vals ==> SetAll(base, fields, vs).vals[k] == base.vals[k]
    decreases |fields|
  {
    if fields != [] {
      var n := |fields| - 1;
      SetAllValue(base, fields[..n], vs[..n], k);
      if k != fields[n] {
        LastIndexInit(fields, k);
      }
    }
  }

  /** From an empty record the assignments build the comprehension over the
      same pairs. */
  lemma {:induction false} SetAllEmpty(fields: seq<string>, vs: seq<Json>)
    requires |fields| == |vs|
    ensures SetAll(Empty(), fields, vs) == FromPairs(fields, vs)
    decreases |fields|
  {
    if fields != [] {
      var n := |fields| - 1;
      SetAllEmpty(fields[..n], vs[..n]);
    }
  }

  /** What an overlay of at least one field file leaves under each key: an
      overlaid field holds the stripped value of its file (a `seeAlso` list
      of lines is not stripped), every other key its stripped old value. */
  lemma OverlayValue(base: Dict<string, Json>, fields: seq<string>, texts: seq<string>, k: string)
    requires |fields| == |texts| && fields != []
    ensures var d := Overlay(base, fields, texts);
      && (k in d.vals <==> k in base.vals || k in fields)
      && (k in fields ==> d.vals[k] == StripValue(FieldValue(k, texts[LastIndex(fields, k)])))
      && (k !in fields && k in base.vals ==> d.vals[k] == StripValue(base.vals[k]))
  {
    OverlayStripsOnce(base, fields, texts);
    SetAllValue(base, fields, FieldValues(fields, texts), k);
  }

  /** The custom record `add_custom` writes: the license fields in order,
      each stripped except the `seeAlso` lines, then `licenseId`. */
  function CustomRecord(shortname: string, texts: seq<string>): (d: Dict<string, Json>)
    requires |texts| == |LicenseFields|
    ensures Valid(d)
  {
    WithId(LicenseFields, texts, shortname)
  }

  /** The fields overlaid onto an empty record, then `licenseId` set. */
  function WithId(fields: seq<string>, texts: seq<string>, shortname: string): (d: Dict<string, Json>)
    requires |fields| == |texts|
    ensures Valid(d)
  {
    Set(Overlay(Empty(), fields, texts), "licenseId", JStr(shortname))
  }

  lemma LicenseFieldsDistinct()
    ensures Distinct(LicenseFields) && Distinct(ExceptionFields)
  {
  }

  /** Distinct fields overlaid onto an empty record: the fields in order,
      each holding its own file's stripped value. */
  lemma OverlayEmpty(fields: seq<string>, texts: seq<string>)
    requires |fields| == |texts| && Distinct(fields)
    ensures var o := Overlay(Empty(), fields, texts);
      && o.keys == fields
      && forall i :: 0 <= i < |fields| ==>
           (fields[i] in o.vals && o.vals[fields[i]] == StripValue(FieldValue(fields[i], texts[i])))
  {
    if fields != [] {
      OverlayEmptyKeys(fields, texts);
      forall i | 0 <= i < |fields|
        ensures fields[i] in Overlay(Empty(), fields, texts).vals
        ensures Overlay(Empty(), fields, texts).vals[fields[i]] == StripValue(FieldValue(fields[i], texts[i]))
      {
        OverlayValue(Empty(), fields, texts, fields[i]);
        LastIndexDistinct(fields, i);
      }
    }
  }

  lemma OverlayEmptyKeys(fields: seq<string>, texts: seq<string>)
    requires |fields| == |texts| && Distinct(fields) && fields != []
    ensures Overlay(Empty(), fields, texts).keys == fields
  {
    var vs := FieldValues(fields, texts);
    OverlayStripsOnce(Empty(), fields, texts);
    SetAllEmpty(fields, vs);
    FromPairsDistinctKeys(fields, vs);
  }

  lemma WithIdShape(fields: seq<string>, texts: seq<string>, shortname: string)
    requires |fields| == |texts| && Distinct(fields) && "licenseId" !in fields
    ensures var d := WithId(fields, texts, shortname);
      && d.keys == fields + ["licenseId"]
      && "licenseId" in d.vals && d.vals["licenseId"] == JStr(shortname)
      && forall i :: 0 <= i < |fields| ==>
           (fields[i] in d.vals && d.vals[fields[i]] == StripValue(FieldValue(fields[i], texts[i])))
  {
    OverlayEmpty(fields, texts);
  }

  /** The shape of a custom record: its keys are the six license fields in
      the order they are read followed by `licenseId`; `seeAlso` is the
      file's lines, as they are; every other field is its file's text
      stripped; `licenseId` is the short name. */
  lemma CustomRecordShape(shortname: string, texts: seq<string>)
    requires |texts| == |LicenseFields|
    ensures var d := CustomRecord(shortname, texts);
      && d.keys == LicenseFields + ["licenseId"]
      && "licenseId" in d.vals && d.vals["licenseId"] == JStr(shortname)
      && "seeAlso" in d.vals && d.vals["seeAlso"] == JArr(Lines(texts[5]))
      && forall i :: 0 <= i < 5 ==> (LicenseFields[i] in d.vals && d.vals[LicenseFields[i]] == JStr(Strip(texts[i])))
  {
    LicenseFieldsDistinct();
    WithIdShape(LicenseFields, texts, shortname);
    assert LicenseFields[5] == "seeAlso";
  }

  /** The arguments `init_adaption` receives: flags, strings, or nothing. */
  datatype Arg = ANone | ABool(b: bool) | AStr(s: string)

  /** Python truthiness of an argument value. */
  predicate Truthy(a: Arg) {
    match a
    case ANone => false
    case ABool(b) => b
    case AStr(s) => s != []
  }

  /** The arguments after the template field is forced on. */
  function Forced(args: Dict<string, Arg>, isException: bool): (r: Dict<string, Arg>)
    ensures Valid(args) ==> Valid(r)
  {
    Set(args, Template(isException), ABool(true))
  }

  /** The keys among `keys`, in order, that name a field of the kind and
      whose argument is truthy. */
  function Pick(keys: seq<string>, args: map<string, Arg>, fields: seq<string>): (r: seq<string>)
    decreases |keys|
  {
    if keys == [] then []
    else
      var n := |keys| - 1;
      var k := keys[n];
      Pick(keys[..n], args, fields) + (if k in fields && k in args && Truthy(args[k]) then [k] else [])
  }

  lemma {:induction false} PickMember(keys: seq<string>, args: map<string, Arg>, fields: seq<string>, f: string)
    ensures f in Pick(keys, args, fields) <==> f in keys && f in fields && f in args && Truthy(args[f])
    decreases |keys|
  {
    if keys != [] {
      var n := |keys| - 1;
      PickMember(keys[..n], args, fields, f);
      assert keys == keys[..n] + [keys[n]];
    }
  }

  /** The field files `init_adaption` creates, in argument order. */
  function Chosen(args: Dict<string, Arg>, isException: bool): seq<string> {
    var forced := Forced(args, isException);
    Pick(forced.keys, forced.vals, KindFields(isException))
  }

  /** A field file is created exactly when the field belongs to the kind and
      is the template or was asked for; so at least the template is created
      and the scaffold is never empty. */
  lemma ChosenExactly(args: Dict<string, Arg>, isException: bool, f: string)
    requires Valid(args)
    ensures f in Chosen(args, isException) <==>
      f in KindFields(isException) && (f == Template(isException) || (f in args.vals && Truthy(args.vals[f])))
    ensures Chosen(args, isException) != []
  {
    var forced := Forced(args, isException);
    var t := Template(isException);
    PickMember(forced.keys, forced.vals, KindFields(isException), f);
    PickMember(forced.keys, forced.vals, KindFields(isException), t);
    assert t in forced.keys;
  }

  /** Short names in a directory listing that still need assembling: those
      not ending in `.json`, in listing order. */
  function Unassembled(names: seq<string>): (r: seq<string>)
    ensures |r| <= |names|
    decreases |names|
  {
    if names == [] then []
    else
      var n := |names| - 1;
      Unassembled(names[..n]) + (if EndsWith(names[n], ".json") then [] else [names[n]])
  }

  lemma {:induction false} UnassembledMember(names: seq<string>, x: string)
    ensures x in Unassembled(names) <==> x in names && !EndsWith(x, ".json")
    decreases |names|
  {
    if names != [] {
      var n := |names| - 1;
      UnassembledMember(names[..n], x);
      assert names == names[..n] + [names[n]];
    }
  }
}
