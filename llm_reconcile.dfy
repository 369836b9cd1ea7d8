/**
 * The reconciliation inside `detect_with_llm` of the OpenRouter service: upload
 * validation, the name-to-id index built from the caller's categories, the
 * confidence normaliser and the closed-set label rule. The vision model is not
 * modelled: its reply text is the parameter `reply`. The JSON decoder and Python's
 * `float(str)` are the parameters `parse` and `floatOfString`.
 */
module LlmReconcile {
  import opened Wrappers
  import opened Strings
  import opened JsonExtract

  /** One entry of the caller's category list. */
  datatype Category = Category(id: int, name: string)

  /** The uploaded file as the endpoint sees it. */
  datatype Upload = Upload(contentType: string, size: nat)

  /** The single best guess returned to the caller; `id` is Python's `None` when absent. */
  datatype Resolution = Resolution(id: Option<int>, labelName: string, confidence: int)

  /** Why a request fails. `TypeMismatch` stands for the Python `TypeError` or
      `AttributeError` raised when the decoded value has an unexpected shape. */
  datatype Failure = NotAnImage | TooLarge | InvalidJson | TypeMismatch

  datatype Reply = Resolved(resolution: Resolution) | Failed(status: nat, failure: Failure)

  /** The label that means "no actionable issue". */
  const NoIssue := "No Issue"
  /** The status `except Exception` answers with. */
  const ServerError: nat := 500
  /** The largest accepted upload, in bytes. */
  const MaxImageBytes := 5 * 1024 * 1024

  /** `cats[k]` is the last entry with its name. */
  ghost predicate LastWithName(cats: seq<Category>, k: int)
    requires 0 <= k < |cats|
  {
    forall m :: k < m < |cats| ==> cats[m].name != cats[k].name
  }

  /** The names in the caller's category list. */
  function Names(cats: seq<Category>): set<string> {
    set c | c in cats :: c.name
  }

  /** `{cat['name']: cat['id'] for cat in category_list}`: every name is a key, and a
      name repeated in the list maps to the id of its last entry. */
  function BuildIndex(cats: seq<Category>): (index: map<string, int>)
    ensures forall k :: 0 <= k < |cats| ==> cats[k].name in index
    ensures forall k :: 0 <= k < |cats| && LastWithName(cats, k) ==> index[cats[k].name] == cats[k].id
  {
    if cats == [] then map[]
    else
      var n := |cats| - 1;
      var init, last := cats[..n], cats[n];
      var prev := BuildIndex(init);
      var index := prev[last.name := last.id];
      assert forall k :: 0 <= k < n ==> init[k] == cats[k];
      assert forall k :: 0 <= k < n && LastWithName(cats, k) ==> LastWithName(init, k) && cats[k].name != last.name;
      index
  }

  /** The index has exactly the supplied names as keys. */
  lemma {:induction false} IndexKeys(cats: seq<Category>)
    ensures BuildIndex(cats).Keys == Names(cats)
  {
    if cats != [] {
      var n := |cats| - 1;
      IndexKeys(cats[..n]);
      assert cats == cats[..n] + [cats[n]];
      assert Names(cats) == Names(cats[..n]) + {cats[n].name};
    }
  }

  /** Python's `int(x)` on a finite float: truncation toward zero. */
  function TruncateTowardZero(x: real): (n: int)
    ensures 0.0 <= x ==> n as real <= x < n as real + 1.0
    ensures x < 0.0 ==> n as real - 1.0 < x <= n as real
  {
    if x >= 0.0 then x.Floor else -((-x).Floor)
  }

  /** `max(0, min(100, n))`. */
  function Clamp(n: int): (c: int)
    ensures 0 <= c <= 100
    ensures 0 <= n <= 100 ==> c == n
    ensures n < 0 ==> c == 0
    ensures 100 < n ==> c == 100
  {
    if n < 0 then 0 else if n > 100 then 100 else n
  }

  /** Python's `float(v)` on a decoded JSON value: `None` where it raises. */
  function ToFloat(v: Json, floatOfString: string -> Option<Num>): (r: Option<Num>)
    ensures v.JNum? ==> r == Some(v.n)
    ensures v.JBool? ==> r == Some(Finite(if v.b then 1.0 else 0.0))
    ensures v.JStr? ==> r == floatOfString(v.s)
    ensures v.JNull? || v.JArr? || v.JObj? ==> r.None?
  {
    match v
    case JNum(n) => Some(n)
    case JBool(b) => Some(Finite(if b then 1.0 else 0.0))
    case JStr(s) => floatOfString(s)
    case _ => None
  }

  /** Does `n` hold a finite value? */
  predicate IsFinite(n: Option<Num>) {
    n.Some? && n.value.Finite?
  }

  /** `int(float(v))`, falling back to 0 on any exception; then clamped to [0, 100].
      `v` is `parsed.get("confidence", 0)`. */
  function NormalizeConfidence(fields: map<string, Json>, floatOfString: string -> Option<Num>): (c: int)
    ensures 0 <= c <= 100
    ensures "confidence" !in fields ==> c == 0
    ensures "confidence" in fields && fields["confidence"].JNull? ==> c == 0
    ensures "confidence" in fields && (fields["confidence"].JArr? || fields["confidence"].JObj?) ==> c == 0
    ensures "confidence" in fields && fields["confidence"] == JNum(NonFinite) ==> c == 0
    ensures forall x :: "confidence" in fields && fields["confidence"] == JNum(Finite(x)) ==> c == Clamp(TruncateTowardZero(x))
    ensures forall b :: "confidence" in fields && fields["confidence"] == JBool(b) ==> c == (if b then 1 else 0)
    ensures forall s, x :: "confidence" in fields && fields["confidence"] == JStr(s) && floatOfString(s) == Some(Finite(x))
              ==> c == Clamp(TruncateTowardZero(x))
    ensures forall s :: "confidence" in fields && fields["confidence"] == JStr(s) && !IsFinite(floatOfString(s))
              ==> c == 0
  {
    var raw := if "confidence" in fields then fields["confidence"] else JNum(Finite(0.0));
    var truncated :=
      match ToFloat(raw, floatOfString)
      case Some(Finite(x)) => TruncateTowardZero(x)
      case _ => 0;
    Clamp(truncated)
  }

  /** The label and id reported for a decoded `"label"` value. */
  datatype Match = Match(id: Option<int>, labelName: string)

  /** `category_name_to_id.get(detected_label)` and the fallback to "No Issue". A list or
      object label cannot be a dict key (`None`: Python raises); any other non-string
      label matches no name and becomes "No Issue". */
  function ReconcileLabel(raw: Json, index: map<string, int>): (r: Option<Match>)
    ensures r.None? <==> raw.JArr? || raw.JObj?
    ensures r.Some? ==> r.value.labelName in index || r.value.labelName == NoIssue
    ensures r.Some? && r.value.id.Some? ==> r.value.labelName in index && r.value.id.value == index[r.value.labelName]
    ensures r.Some? && r.value.id.None? ==> r.value.labelName == NoIssue
    ensures r.Some? ==> (r.value.id.Some? <==> raw.JStr? && raw.s in index)
    ensures forall s :: raw == JStr(s) && s in index ==> r == Some(Match(Some(index[s]), s))
    ensures forall s :: raw == JStr(s) && s !in index ==> r == Some(Match(None, NoIssue))
  {
    match raw
    case JArr(_) => None
    case JObj(_) => None
    case JStr(s) =>
      var id := if s in index then Some(index[s]) else None;
      if s != NoIssue && id.None? then Some(Match(None, NoIssue)) else Some(Match(id, s))
    case _ =>
      // a non-string label is a key of no entry and differs from "No Issue"
      Some(Match(None, NoIssue))
  }

  /** Python truthiness of a decoded value (`not parsed`). */
  predicate Truthy(v: Json)
    ensures !Truthy(v) <==> v in {JNull, JBool(false), JNum(Finite(0.0)), JStr(""), JArr([]), JObj(map[])}
  {
    match v
    case JNull => false
    case JBool(b) => b
    case JNum(Finite(x)) => x != 0.0
    case JNum(NonFinite) => true
    case JStr(s) => s != ""
    case JArr(items) => items != []
    case JObj(fields) => fields != map[]
  }

  /** The decoded reply is an object whose `"label"` is hashable: the one shape that
      resolves. */
  predicate Labelled(parsed: Option<Json>) {
    && parsed.Some? && parsed.value.JObj? && "label" in parsed.value.fields
    && !parsed.value.fields["label"].JArr? && !parsed.value.fields["label"].JObj?
  }

  /** Everything after the vision-model call: extraction, the `"label"` test,
      confidence normalisation and label reconciliation. */
  function Resolve(reply: string, cats: seq<Category>, parse: string -> Option<Json>,
                   floatOfString: string -> Option<Num>): (r: Reply)
    ensures Extract(reply, parse).None? ==> r == Failed(500, InvalidJson)
    ensures r.Failed? ==> r.status == 500
    ensures r.Resolved? <==> Labelled(Extract(reply, parse))
    ensures Labelled(Extract(reply, parse)) ==>
              var fields := Extract(reply, parse).value.fields;
              var m := ReconcileLabel(fields["label"], BuildIndex(cats)).value;
              r == Resolved(Resolution(m.id, m.labelName, NormalizeConfidence(fields, floatOfString)))
  {
    var parsed := Extract(reply, parse);
    if parsed.None? || !Truthy(parsed.value) then Failed(ServerError, InvalidJson)
    else
      match parsed.value
      case JObj(fields) =>
        if "label" !in fields then Failed(ServerError, InvalidJson)
        else
          var confidence := NormalizeConfidence(fields, floatOfString);
          (match ReconcileLabel(fields["label"], BuildIndex(cats))
           case None => Failed(ServerError, TypeMismatch)
           case Some(m) => Resolved(Resolution(m.id, m.labelName, confidence)))
      // `"label" in parsed` on a list compares elements; `.get` then raises
      case JArr(items) => if JStr("label") in items then Failed(ServerError, TypeMismatch) else Failed(ServerError, InvalidJson)
      // on a string `in` is a substring test; `.get` then raises
      case JStr(s) => if Contains(s, "label") then Failed(ServerError, TypeMismatch) else Failed(ServerError, InvalidJson)
      // `in` on a number or a boolean raises
      case _ => Failed(ServerError, TypeMismatch)
  }

  /** The upload checks, in order: an `image/` content type, then at most 5 MiB. */
  function CheckUpload(upload: Upload): (r: Option<Failure>)
    ensures r == Some(NotAnImage) <==> !StartsWith(upload.contentType, "image/")
    ensures r == Some(TooLarge) <==> StartsWith(upload.contentType, "image/") && upload.size > MaxImageBytes
    ensures r.None? <==> StartsWith(upload.contentType, "image/") && upload.size <= MaxImageBytes
  {
    if !StartsWith(upload.contentType, "image/") then Some(NotAnImage)
    else if upload.size > MaxImageBytes then Some(TooLarge)
    else None
  }

  /** `detect_with_llm` as written: the 400 raised for a bad upload is inside the
      `try` whose `except Exception` turns every exception into a 500. */
  function DetectWithLlmAsWritten(upload: Upload, cats: seq<Category>, reply: string,
                                  parse: string -> Option<Json>, floatOfString: string -> Option<Num>): (r: Reply)
    ensures CheckUpload(upload).Some? ==> r == Failed(500, CheckUpload(upload).value)
    ensures CheckUpload(upload).None? ==> r == Resolve(reply, cats, parse, floatOfString)
  {
    match CheckUpload(upload)
    case Some(f) => Failed(500, f)
    case None => Resolve(reply, cats, parse, floatOfString)
  }

  /** `detect_with_llm` with a bad upload reported as the client error (400) it was raised as. */
  function DetectWithLlm(upload: Upload, cats: seq<Category>, reply: string,
                         parse: string -> Option<Json>, floatOfString: string -> Option<Num>): (r: Reply)
    ensures CheckUpload(upload).Some? ==> r == Failed(400, CheckUpload(upload).value)
    ensures CheckUpload(upload).None? ==> r == DetectWithLlmAsWritten(upload, cats, reply, parse, floatOfString)
  {
    match CheckUpload(upload)
    case Some(f) => Failed(400, f)
    case None => Resolve(reply, cats, parse, floatOfString)
  }

  /** The closed-world guarantee: a resolved label is a supplied category name or
      "No Issue"; the id is that of the last category bearing the label, and it is
      absent only for "No Issue" when no category has that name; the confidence is
      in [0, 100]. */
  lemma {:induction false} ResolvedLabelIsClosed(upload: Upload, cats: seq<Category>, reply: string,
                                                 parse: string -> Option<Json>, floatOfString: string -> Option<Num>)
    requires DetectWithLlm(upload, cats, reply, parse, floatOfString).Resolved?
    ensures var res := DetectWithLlm(upload, cats, reply, parse, floatOfString).resolution;
      && 0 <= res.confidence <= 100
      && (res.labelName == NoIssue || exists k :: 0 <= k < |cats| && cats[k].name == res.labelName)
      && (res.id.None? ==> res.labelName == NoIssue)
      && (res.id.Some? ==> exists k :: 0 <= k < |cats| && cats[k].name == res.labelName && LastWithName(cats, k)
                                       && cats[k].id == res.id.value)
  {
    var res := DetectWithLlm(upload, cats, reply, parse, floatOfString).resolution;
    var index := BuildIndex(cats);
    var fields := Extract(reply, parse).value.fields;
    var m := ReconcileLabel(fields["label"], index).value;
    IndexKeys(cats);
    assert res == Resolution(m.id, m.labelName, NormalizeConfidence(fields, floatOfString));
    if res.id.Some? {
      var k :| 0 <= k < |cats| && cats[k].name == res.labelName;
      k := LastIndexWithName(cats, k);
    }
  }

  /** The last entry sharing the name of entry `k`. */
  lemma LastIndexWithName(cats: seq<Category>, k: nat) returns (last: nat)
    requires k < |cats|
    ensures k <= last < |cats| && cats[last].name == cats[k].name && LastWithName(cats, last)
    decreases |cats| - k
  {
    if exists m :: k < m < |cats| && cats[m].name == cats[k].name {
      var m :| k < m < |cats| && cats[m].name == cats[k].name;
      last := LastIndexWithName(cats, m);
    } else {
      last := k;
    }
  }

  /** A missing extraction or a missing `"label"` key is a hard failure, never a
      fallback "No Issue" resolution. */
  lemma NoLabelIsHardFailure(upload: Upload, cats: seq<Category>, reply: string,
                             parse: string -> Option<Json>, floatOfString: string -> Option<Num>)
    requires CheckUpload(upload).None?
    requires Extract(reply, parse).None? || Extract(reply, parse) == Some(JObj(map[]))
             || (Extract(reply, parse).value.JObj? && "label" !in Extract(reply, parse).value.fields)
    ensures DetectWithLlm(upload, cats, reply, parse, floatOfString) == Failed(500, InvalidJson)
  {
  }

  /** A bad upload is rejected before the reply is looked at: the result is the same
      for every reply, decoder and category list. */
  lemma {:induction false} UploadCheckedFirst(upload: Upload, cats: seq<Category>, cats': seq<Category>,
                                              reply: string, reply': string,
                                              parse: string -> Option<Json>, parse': string -> Option<Json>,
                                              floatOfString: string -> Option<Num>)
    requires !StartsWith(upload.contentType, "image/") || upload.size > MaxImageBytes
    ensures DetectWithLlm(upload, cats, reply, parse, floatOfString)
         == DetectWithLlm(upload, cats', reply', parse', floatOfString)
    ensures DetectWithLlm(upload, cats, reply, parse, floatOfString).Failed?
    ensures DetectWithLlm(upload, cats, reply, parse, floatOfString).status == 400
  {
    assert CheckUpload(upload).Some?;
  }

  /** The error the source evidently meant to report is hidden: a text upload gets a
      server error (500) where a client error (400) was raised. */
  lemma NonImageGetsServerError(cats: seq<Category>, reply: string,
                                parse: string -> Option<Json>, floatOfString: string -> Option<Num>)
    ensures DetectWithLlmAsWritten(Upload("text/plain", 10), cats, reply, parse, floatOfString) == Failed(500, NotAnImage)
    ensures DetectWithLlm(Upload("text/plain", 10), cats, reply, parse, floatOfString) == Failed(400, NotAnImage)
  {
    assert !StartsWith("text/plain", "image/") by { assert "text/plain"[..6] != "image/" by { assert "text/plain"[0] == 't'; } }
  }

  /** The worked example: index {"Pothole": 1, "Open Manhole": 2}. */
  lemma ReconcileExamples()
    ensures var index := BuildIndex([Category(1, "Pothole"), Category(2, "Open Manhole")]);
      && ReconcileLabel(JStr("Pothole"), index) == Some(Match(Some(1), "Pothole"))
      && ReconcileLabel(JStr("Graffiti"), index) == Some(Match(None, NoIssue))
      && ReconcileLabel(JStr(NoIssue), index) == Some(Match(None, NoIssue))
  {
    var cats := [Category(1, "Pothole"), Category(2, "Open Manhole")];
    assert cats[..1] == [Category(1, "Pothole")] && [Category(1, "Pothole")][..0] == [];
    assert BuildIndex(cats) == map["Pothole" := 1, "Open Manhole" := 2];
  }

  /** The object at the heart of the end-to-end reply below, and its decoding. */
  const PotholeJson := "{\"label\":\"Pothole\",\"confidence\":80}"
  const PotholeFields: map<string, Json> := map["label" := JStr("Pothole"), "confidence" := JNum(Finite(80.0))]

  /** The prose around the object is brace-free, so the object is what is decoded. */
  lemma PotholeReplyExtracts(parse: string -> Option<Json>)
    requires parse(PotholeJson) == Some(JObj(PotholeFields))
    ensures Extract("here you go: " + PotholeJson + " thanks", parse) == Some(JObj(PotholeFields))
  {
    assert PotholeJson[0] == '{' && PotholeJson[|PotholeJson| - 1] == '}';
    assert '{' !in "here you go: " && '}' !in " thanks";
    EmbeddedObject("here you go: ", PotholeJson, " thanks", parse);
  }

  /** End to end: a reply wrapping `{"label":"Pothole","confidence":80}` in prose,
      with the single category Pothole = 1, resolves to that category at 80. */
  lemma PotholeEndToEnd(parse: string -> Option<Json>, floatOfString: string -> Option<Num>)
    requires parse(PotholeJson) == Some(JObj(PotholeFields))
    ensures DetectWithLlm(Upload("image/jpeg", 1024), [Category(1, "Pothole")],
                          "here you go: " + PotholeJson + " thanks", parse, floatOfString)
         == Resolved(Resolution(Some(1), "Pothole", 80))
  {
    PotholeReplyExtracts(parse);
    assert StartsWith("image/jpeg", "image/") by { assert "image/jpeg"[..6] == "image/"; }
    var cats := [Category(1, "Pothole")];
    assert cats[..0] == [];
    assert BuildIndex(cats) == map["Pothole" := 1];
    assert TruncateTowardZero(80.0) == 80;
  }
}
