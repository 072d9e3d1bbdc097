/** The decoded JSON payload of a shinylive.io URL and the validation
    `url_decode` applies to it (shinylive/_url.py). The LZString codec and
    `json.loads` are not modelled: the payload arrives here already parsed
    into a `Json` value. */
module BundleJson {
  import opened Outcomes
  import opened Files

  /** A parsed JSON value. An object is a Python dict: one value per key. */
  datatype Json =
    | JNull
    | JBool(b: bool)
    | JNumber(n: int)
    | JString(s: string)
    | JArray(items: seq<Json>)
    | JObject(fields: map<string, Json>)

  /** The JSON object `json.dumps` writes for one bundle entry: `name`,
      `content` and, when present, `type`. */
  function EntryJson(f: FileContent): (j: Json)
    ensures j.JObject? && "name" in j.fields && "content" in j.fields
    ensures ("type" in j.fields) == f.fileType.Some?
  {
    var base := map["name" := JString(f.name), "content" := JString(f.content)];
    match f.fileType
    case None => JObject(base)
    case Some(t) => JObject(base["type" := JString(if t == Binary then "binary" else "text")])
  }

  function BundleToJson(bundle: seq<FileContent>): (j: Json)
    ensures j.JArray? && |j.items| == |bundle|
    ensures forall i :: 0 <= i < |bundle| ==> j.items[i] == EntryJson(bundle[i])
  {
    JArray(seq(|bundle|, i requires 0 <= i < |bundle| => EntryJson(bundle[i])))
  }

  /** Reference definition of an acceptable bundle entry: an object whose
      `name` and `content` are strings, whose `type`, if any, is "text" or
      "binary", and all of whose values are strings. */
  ghost predicate ValidEntry(j: Json) {
    && j.JObject?
    && "name" in j.fields && j.fields["name"].JString?
    && "content" in j.fields && j.fields["content"].JString?
    && ("type" in j.fields ==> j.fields["type"] in {JString("text"), JString("binary")})
    && (forall k :: k in j.fields ==> j.fields[k].JString?)
  }

  predicate AllStrings(fields: map<string, Json>) {
    forall k :: k in fields ==> fields[k].JString?
  }

  /** One iteration of the validation loop of `url_decode`: the checks in
      the source's order, each failing with ValueError. The decoded entry
      keeps only `name`, `content` and a `binary` type; a `text` type is
      dropped. */
  function DecodeEntry(j: Json): (r: Result<FileContent>)
    ensures r.Ok? <==> ValidEntry(j)
    ensures r.Err? ==> r.error.ValueError?
    ensures r.Ok? ==> && JString(r.value.name) == j.fields["name"]
                      && JString(r.value.content) == j.fields["content"]
                      && (r.value.fileType == Some(Binary) <==> "type" in j.fields && j.fields["type"] == JString("binary"))
                      && r.value.fileType != Some(Text)
  {
    if !j.JObject? then Err(ValueError("`code` did not decode to a list of dictionaries"))
    else
      var fields := j.fields;
      if "name" !in fields || "content" !in fields then Err(ValueError("missing required fields `name` or `content`"))
      else if !fields["name"].JString? then Err(ValueError("`name` was not a string"))
      else if !fields["content"].JString? then Err(ValueError("`content` was not a string"))
      else if "type" in fields && fields["type"] != JString("binary") && fields["type"] != JString("text") then
        Err(ValueError("unexpected file type"))
      else if !AllStrings(fields) then Err(ValueError("not all items were strings"))
      else
        var t := if "type" in fields && fields["type"] == JString("binary") then Some(Binary) else None;
        Ok(FileContent(fields["name"].s, fields["content"].s, t))
  }

  /** The whole validation of `url_decode`: the payload must be a list, and
      the first invalid entry (in list order) decides the error. */
  function DecodeBundle(j: Json): (r: Result<seq<FileContent>>)
    ensures r.Ok? <==> j.JArray? && forall i :: 0 <= i < |j.items| ==> ValidEntry(j.items[i])
    ensures r.Err? ==> r.error.ValueError?
    ensures r.Ok? ==> (|r.value| == |j.items| &&
              forall i :: 0 <= i < |j.items| ==> DecodeEntry(j.items[i]) == Ok(r.value[i]))
  {
    if !j.JArray? then Err(ValueError("`code` did not decode to a list"))
    else DecodeEntries(j.items)
  }

  function DecodeEntries(items: seq<Json>): (r: Result<seq<FileContent>>)
    ensures r.Ok? <==> forall i :: 0 <= i < |items| ==> ValidEntry(items[i])
    ensures r.Err? ==> r.error.ValueError?
    ensures r.Ok? ==> (|r.value| == |items| &&
              forall i :: 0 <= i < |items| ==> DecodeEntry(items[i]) == Ok(r.value[i]))
  {
    if |items| == 0 then Ok([])
    else
      var first :- DecodeEntry(items[0]);
      var rest :- DecodeEntries(items[1..]);
      assert forall i :: 1 <= i < |items| ==> items[i] == items[1..][i - 1];
      Ok([first] + rest)
  }

  /** The form a bundle entry takes after a trip through JSON: a `text`
      type is the same as no type, so it is dropped. */
  function Normalized(f: FileContent): (g: FileContent)
    ensures g.name == f.name && g.content == f.content
    ensures g.fileType == (if f.fileType == Some(Binary) then Some(Binary) else None)
  {
    f.(fileType := if f.fileType == Some(Binary) then Some(Binary) else None)
  }

  /** Decoding what was encoded gives every entry back, normalised. */
  lemma EntryRoundTrip(f: FileContent)
    ensures DecodeEntry(EntryJson(f)) == Ok(Normalized(f))
  {
    var j := EntryJson(f);
    assert ValidEntry(j);
  }

  lemma BundleRoundTrip(bundle: seq<FileContent>)
    ensures DecodeBundle(BundleToJson(bundle)) == Ok(seq(|bundle|, i requires 0 <= i < |bundle| => Normalized(bundle[i])))
  {
    var j := BundleToJson(bundle);
    forall i | 0 <= i < |bundle| ensures ValidEntry(j.items[i]) && DecodeEntry(j.items[i]) == Ok(Normalized(bundle[i])) {
      EntryRoundTrip(bundle[i]);
    }
    var r := DecodeBundle(j);
    var expected := seq(|bundle|, i requires 0 <= i < |bundle| => Normalized(bundle[i]));
    assert r.Ok?;
    forall i | 0 <= i < |bundle| ensures r.value[i] == expected[i] {
      assert DecodeEntry(j.items[i]) == Ok(r.value[i]);
    }
    assert r.value == expected;
  }

  /** An entry with an extra non-string value is rejected even when its
      `name`, `content` and `type` are fine. */
  lemma ExtraNonStringRejected(name: string, content: string, key: string, v: Json)
    requires key != "name" && key != "content" && key != "type" && !v.JString?
    ensures DecodeEntry(JObject(map["name" := JString(name), "content" := JString(content), key := v])).Err?
  {
    var j := JObject(map["name" := JString(name), "content" := JString(content), key := v]);
    assert key in j.fields && !j.fields[key].JString?;
  }
}
