/**
 * The file import and export of src/components/layout/hooks.ts. The export writes the envelope
 * `{ appName, version, data }` as JSON after a byte order mark; the import strips a leading byte
 * order mark, parses, and accepts only an envelope of this application and version whose `data` is
 * an object. JSON text itself is produced and read by the library, given here as parameters.
 */
module LayoutIo {
  import opened Wrappers
  import AppUtil

  /** A parsed JSON value; `JArray` and `JObject` are the values of `typeof` "object" besides `null`. */
  datatype Json =
    | JNull
    | JBool(b: bool)
    | JNumber(n: int)
    | JString(s: string)
    | JArray(items: seq<Json>)
    | JObject(members: map<string, Json>)

  /** U+FEFF, the byte order mark. */
  const Bom: char := '\U{FEFF}'

  /** `text.charCodeAt(0) === 0xfeff ? text.slice(1) : text`. */
  function StripBom(text: string): (r: string)
    ensures |text| > 0 && text[0] == Bom ==> r == text[1..]
    ensures !(|text| > 0 && text[0] == Bom) ==> r == text
  {
    if |text| > 0 && text[0] == Bom then text[1..] else text
  }

  /** `typeof v === "object" && v !== null`. */
  predicate IsObject(v: Json) {
    v.JArray? || v.JObject?
  }

  /** `v.key`: the member of an object, or `None` for `undefined`. */
  function Member(v: Json, key: string): (r: Option<Json>)
    ensures r.Some? <==> v.JObject? && key in v.members
    ensures r.Some? ==> r.value == v.members[key]
  {
    if v.JObject? && key in v.members then Some(v.members[key]) else None
  }

  /**
   * The envelope test: a non-null object whose `appName` and `version` are exactly this
   * application's name and version strings and whose `data` is a non-null object. The accepted
   * value is the `data` dispatched in one `jsonImport`; `None` is the thrown format error.
   */
  function CheckEnvelope(parsed: Json, appName: string, version: string): (r: Option<Json>)
    ensures r.Some? <==> (IsObject(parsed) && Member(parsed, "appName") == Some(JString(appName)) &&
      Member(parsed, "version") == Some(JString(version)) &&
      Member(parsed, "data").Some? && IsObject(Member(parsed, "data").value))
    ensures r.Some? ==> r == Member(parsed, "data")
  {
    if !IsObject(parsed) || Member(parsed, "appName") != Some(JString(appName)) ||
       Member(parsed, "version") != Some(JString(version))
    then None
    else
      var data := Member(parsed, "data");
      if data.None? || !IsObject(data.value) then None else data
  }

  /**
   * The import of a file's text: the byte order mark stripped, `parse` (`JSON.parse`, `None` when
   * it throws) applied, and the envelope checked; `None` when nothing is dispatched.
   */
  function ImportText(text: string, parse: string -> Option<Json>, appName: string, version: string): (r: Option<Json>)
    ensures parse(StripBom(text)).None? ==> r.None?
    ensures parse(StripBom(text)).Some? ==> r == CheckEnvelope(parse(StripBom(text)).value, appName, version)
  {
    var parsed := parse(StripBom(text));
    if parsed.None? then None else CheckEnvelope(parsed.value, appName, version)
  }

  /** The export envelope `{ appName, version: appVersion, data: timeline }`. */
  function Envelope(appName: string, version: string, timeline: Json): (r: Json)
    ensures Member(r, "appName") == Some(JString(appName)) && Member(r, "version") == Some(JString(version))
    ensures Member(r, "data") == Some(timeline) && r.JObject? && r.members.Keys == {"appName", "version", "data"}
  {
    JObject(map["appName" := JString(appName), "version" := JString(version), "data" := timeline])
  }

  /** The exported file's text: the byte order mark, then `stringify` (`JSON.stringify` indented by two) of the envelope. */
  function ExportText(appName: string, version: string, timeline: Json, stringify: Json -> string): (r: string)
    ensures |r| >= 1 && r[0] == Bom && r[1..] == stringify(Envelope(appName, version, timeline))
  {
    [Bom] + stringify(Envelope(appName, version, timeline))
  }

  /** The exported file's name: the date, '_', the sanitised scenario name, then ".json". */
  function ExportFilename(dateStr: string, scenarioName: string): (r: string)
    ensures |r| == |dateStr| + 1 + |scenarioName| + 5
    ensures r[..|dateStr|] == dateStr && r[|dateStr|] == '_' && r[|r| - 5..] == ".json"
    ensures r[|dateStr| + 1..|r| - 5] == AppUtil.SanitizeFilename(scenarioName)
    ensures forall i :: |dateStr| + 1 <= i < |r| - 5 ==> !AppUtil.Forbidden(r[i])
  {
    var safe := AppUtil.SanitizeFilename(scenarioName);
    AppUtil.SanitizeClean(scenarioName);
    var r := dateStr + "_" + safe + ".json";
    assert r[|dateStr| + 1..|r| - 5] == safe;
    r
  }

  /** The mark is stripped once: the text after one mark is recovered whatever it starts with. */
  lemma StripBomOnce(text: string)
    ensures StripBom([Bom] + text) == text
    ensures |text| > 0 && text[0] == Bom ==> StripBom(StripBom([Bom] + text)) == text[1..]
  {
  }

  /**
   * Exporting then importing gives the timeline back, given that the library parses what it
   * stringifies, as long as the timeline is an object (a timeline state always is).
   */
  lemma ExportImportRoundTrip(appName: string, version: string, timeline: Json,
                              stringify: Json -> string, parse: string -> Option<Json>)
    requires parse(stringify(Envelope(appName, version, timeline))) == Some(Envelope(appName, version, timeline))
    requires IsObject(timeline)
    ensures ImportText(ExportText(appName, version, timeline, stringify), parse, appName, version) == Some(timeline)
  {
    assert StripBom(ExportText(appName, version, timeline, stringify)) == stringify(Envelope(appName, version, timeline));
  }

  /** A file from another application or another version, or whose data is not an object, is refused. */
  lemma ForeignFileRefused(appName: string, version: string, otherName: string, otherVersion: string, data: Json)
    ensures otherName != appName ==> CheckEnvelope(Envelope(otherName, version, data), appName, version).None?
    ensures otherVersion != version ==> CheckEnvelope(Envelope(appName, otherVersion, data), appName, version).None?
    ensures !IsObject(data) ==> CheckEnvelope(Envelope(appName, version, data), appName, version).None?
  {
  }
}
