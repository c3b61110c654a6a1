/** The frontend's `request` helper, after `fetch` has answered: read the body, parse it as
    JSON when it is JSON, return it on success, and otherwise throw an error whose message is
    chosen from the body. */
module Api {
  import opened Wrappers
  import opened RequestRules

  /** A JSON value. A number is held as JavaScript's own text for it (`String(n)`), so that
      zero is exactly the number whose text is "0". */
  datatype Json =
    | JNull
    | JBool(b: bool)
    | JNumber(text: string)
    | JString(s: string)
    | JArray(items: seq<Json>)
    | JObject(fields: map<string, Json>)

  /** What `fetch` resolved to: the `ok` flag, the status text and the body text. */
  datatype Response = Response(ok: bool, statusText: string, text: string)

  /** How `request` ends: it returns the body, throws an `Error` with a message, or fails
      with a `TypeError` reading `message` of a `null` entry of an `errors` array. */
  datatype Outcome = Returned(data: Json) | Threw(message: string) | TypeErrorThrown

  /** JavaScript truthiness of a JSON value. */
  predicate Truthy(v: Json) {
    match v
    case JNull => false
    case JBool(b) => b
    case JNumber(text) => text != "0"
    case JString(s) => s != ""
    case JArray(_) => true
    case JObject(_) => true
  }

  /** `String(v)`, as `join` and `new Error` convert a value to text. */
  function ToText(v: Json): string {
    match v
    case JNull => "null"
    case JBool(b) => if b then "true" else "false"
    case JNumber(text) => text
    case JString(s) => s
    case JArray(items) => Join(seq(|items|, i requires 0 <= i < |items| => if items[i].JNull? then "" else ToText(items[i])), ",")
    case JObject(_) => "[object Object]"
  }

  /** The parts separated by `sep` (`Array.prototype.join`). */
  function Join(parts: seq<string>, sep: string): (r: string)
    ensures |parts| == 0 ==> r == ""
    ensures |parts| == 1 ==> r == parts[0]
    ensures |parts| > 0 ==> |parts[0]| <= |r| && r[..|parts[0]|] == parts[0]
    decreases |parts|
  {
    if |parts| == 0 then ""
    else if |parts| == 1 then parts[0]
    else parts[0] + sep + Join(parts[1..], sep)
  }

  /** Two parts are joined around one separator. */
  lemma JoinPair(a: string, b: string, sep: string)
    ensures Join([a, b], sep) == a + sep + b
  {
    assert [a, b][1..] == [b];
  }

  /** The value of property `key` of `v`, absent unless `v` is an object holding it. */
  function Property(v: Json, key: string): Option<Json> {
    if v.JObject? && key in v.fields then Some(v.fields[key]) else None
  }

  /** `e.message || ""` for one entry of an `errors` array; none for a `null` entry, whose
      `message` cannot be read. */
  function EntryText(e: Json): (r: Option<string>)
    ensures r.None? <==> e.JNull?
    ensures e.JObject? && "message" in e.fields && e.fields["message"].JString? ==> r == Some(e.fields["message"].s)
    ensures !e.JNull? && (Property(e, "message").None? || !Truthy(Property(e, "message").value)) ==> r == Some("")
    ensures Property(e, "message").Some? && Truthy(Property(e, "message").value) ==>
              r == Some(ToText(Property(e, "message").value))
  {
    if e.JNull? then None
    else match Property(e, "message")
      case Some(m) => if Truthy(m) then Some(ToText(m)) else Some("")
      case None => Some("")
  }

  /** The texts of the entries, or none if an entry is `null`. */
  function EntryTexts(entries: seq<Json>): (r: Option<seq<string>>)
    ensures r.None? <==> exists i :: 0 <= i < |entries| && entries[i].JNull?
    ensures r.Some? ==> |r.value| == |entries| && forall i :: 0 <= i < |entries| ==> Some(r.value[i]) == EntryText(entries[i])
    decreases |entries|
  {
    if |entries| == 0 then Some([])
    else match (EntryText(entries[0]), EntryTexts(entries[1..]))
      case (Some(t), Some(ts)) => Some([t] + ts)
      case _ => None
  }

  /** The message thrown for a failed response with body `data`: the `errors` messages joined
      by ", "; else the body itself when it is a non-empty string; else its `message`; else the
      status text. None when reading the `errors` array fails. */
  function ErrorMessage(data: Json, statusText: string): (r: Option<string>)
    ensures (Property(data, "errors").Some? && Property(data, "errors").value.JArray?) ==>
              r == (match EntryTexts(Property(data, "errors").value.items)
                    case Some(texts) => Some(Join(texts, ", "))
                    case None => None)
    ensures !(Property(data, "errors").Some? && Property(data, "errors").value.JArray?) ==> r.Some?
    ensures data.JString? && data.s != "" ==> r == Some(data.s)
    ensures !data.JObject? && !(data.JString? && data.s != "") ==> r == Some(statusText)
    ensures data.JObject? && !("errors" in data.fields && data.fields["errors"].JArray?) ==>
              r == Some(if "message" in data.fields && !data.fields["message"].JNull?
                        then ToText(data.fields["message"]) else statusText)
  {
    var errors := Property(data, "errors");
    if errors.Some? && errors.value.JArray? then
      match EntryTexts(errors.value.items)
      case Some(texts) => Some(Join(texts, ", "))
      case None => None
    else if data.JString? && data.s != "" then Some(data.s)
    else match Property(data, "message")
      case Some(m) => if m.JNull? then Some(statusText) else Some(ToText(m))
      case None => Some(statusText)
  }

  /** The end of `request` once `fetch` has answered with `response`; `parsed` is what
      `JSON.parse` made of the body text, none when it threw. */
  function Request(response: Response, parsed: Option<Json>): (r: Outcome)
    ensures response.ok ==> r == Returned(parsed.GetOr(JString(response.text)))
    ensures !response.ok ==> !r.Returned?
    ensures !response.ok && parsed.None? && response.text != "" ==> r == Threw(response.text)
    ensures !response.ok && parsed.None? && response.text == "" ==> r == Threw(response.statusText)
    ensures !response.ok && parsed.Some? ==>
              r == (match ErrorMessage(parsed.value, response.statusText)
                    case Some(message) => Threw(message)
                    case None => TypeErrorThrown)
    ensures && !response.ok && parsed.Some?
            && Property(parsed.value, "errors").Some? && Property(parsed.value, "errors").value.JArray?
            && (exists i :: 0 <= i < |Property(parsed.value, "errors").value.items|
                              && Property(parsed.value, "errors").value.items[i].JNull?)
            ==> r == TypeErrorThrown
    ensures && !response.ok && parsed.Some? && parsed.value.JObject?
            && !("errors" in parsed.value.fields && parsed.value.fields["errors"].JArray?)
            ==> r == Threw(if "message" in parsed.value.fields && !parsed.value.fields["message"].JNull?
                           then ToText(parsed.value.fields["message"]) else response.statusText)
  {
    var data := parsed.GetOr(JString(response.text));
    if response.ok then Returned(data)
    else match ErrorMessage(data, response.statusText)
      case Some(message) => Threw(message)
      case None => TypeErrorThrown
  }

  /** The JSON body of a backend error reply: `{ errors: [{ message }, ...] }`. */
  function ErrorBody(entries: seq<ErrorEntry>): Json {
    JObject(map["errors" := JArray(seq(|entries|, i requires 0 <= i < |entries| =>
                                        JObject(map["message" := JString(EntryMessage(entries[i]))])))])
  }

  /** A backend error reply reaches the caller as one error carrying its messages joined by ", ". */
  lemma ErrorReplyMessage(entries: seq<ErrorEntry>, statusText: string, text: string)
    ensures var messages := seq(|entries|, i requires 0 <= i < |entries| => EntryMessage(entries[i]));
            Request(Response(false, statusText, text), Some(ErrorBody(entries))) == Threw(Join(messages, ", "))
  {
    var messages := seq(|entries|, i requires 0 <= i < |entries| => EntryMessage(entries[i]));
    var items := ErrorBody(entries).fields["errors"].items;
    var texts := EntryTexts(items);
    assert forall i :: 0 <= i < |items| ==> EntryText(items[i]) == Some(messages[i]);
    assert texts.Some? && texts.value == messages;
  }

  /** A `{ message }` reply, such as the backend's "not found" replies, reaches the caller as
      that message. */
  lemma MessageReplyMessage(message: string, statusText: string, text: string)
    ensures Request(Response(false, statusText, text), Some(JObject(map["message" := JString(message)])))
            == Threw(message)
  {
  }

  /** A plain-text failure body is the message. */
  lemma PlainTextFailureScenario()
    ensures Request(Response(false, "Internal Server Error", "Something went wrong"), None)
            == Threw("Something went wrong")
  {
  }

  /** The two entries of `TwoErrorsFailureScenario` read as their two messages. */
  lemma TwoEntryTexts(a: string, b: string)
    ensures EntryTexts([JObject(map["message" := JString(a)]), JObject(map["message" := JString(b)])]) == Some([a, b])
  {
    var first, second := JObject(map["message" := JString(a)]), JObject(map["message" := JString(b)]);
    var items := [first, second];
    assert items[0] == first && items[1..] == [second] && [second][1..] == [];
    assert EntryTexts([]) == Some([]);
    assert EntryTexts([second]) == Some([b]) by {
      assert [b] + [] == [b];
    }
    assert [a] + [b] == [a, b];
  }

  /** A failed response whose body holds an `errors` array of readable entries throws their
      texts joined by ", ", whatever the status text and the body text. */
  lemma ErrorsArrayMessage(body: Json, items: seq<Json>, texts: seq<string>, statusText: string, text: string)
    requires Property(body, "errors") == Some(JArray(items))
    requires EntryTexts(items) == Some(texts)
    ensures Request(Response(false, statusText, text), Some(body)) == Threw(Join(texts, ", "))
  {
  }

  /** A JSON list of two errors, such as an invalid e-mail and a missing licence, gives both
      messages, in order, joined by ", ". */
  lemma TwoErrorsFailureScenario(a: string, b: string)
    ensures var body := JObject(map["errors" := JArray([JObject(map["message" := JString(a)]),
                                                       JObject(map["message" := JString(b)])])]);
            Request(Response(false, "", "{...}"), Some(body)) == Threw(a + ", " + b)
  {
    var first, second := JObject(map["message" := JString(a)]), JObject(map["message" := JString(b)]);
    var body := JObject(map["errors" := JArray([first, second])]);
    TwoEntryTexts(a, b);
    ErrorsArrayMessage(body, [first, second], [a, b], "", "{...}");
    JoinPair(a, b, ", ");
  }
}
