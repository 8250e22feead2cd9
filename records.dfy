/** The records of `src/json_parser.rs` and their JSON form. `serde` derives
    the encoding; here it is a map to a JSON value tree (`serde_json::Value`)
    and a decoder that reads the fields back by key, as a derived
    `Deserialize` does. */
module Records {
  import opened Wrappers

  datatype SourceFile = SourceFile(filename: string, content: string)

  /** The grading record sent to the grading service. */
  datatype Payload = Payload(
    userId: string,
    task: string,
    readMe: string,
    sourceFiles: seq<SourceFile>,
    testResults: string)

  /** The verdict stored as `<student>_feedback.json`. */
  datatype FeedbackEntry = FeedbackEntry(studentId: string, status: string, feedback: string)

  /** The body of a tracker issue. */
  datatype Issue = Issue(title: string, body: string)

  /** A JSON value, as far as these records need one. */
  datatype Json =
    | JString(str: string)
    | JArray(items: seq<Json>)
    | JObject(fields: seq<(string, Json)>)

  /** The value of the first field named `key`. */
  function Lookup(fields: seq<(string, Json)>, key: string): Option<Json>
    decreases |fields|
  {
    if fields == [] then None
    else if fields[0].0 == key then Some(fields[0].1)
    else Lookup(fields[1..], key)
  }

  /** `Lookup` finds the field at `k` when no earlier field has the same key. */
  lemma {:induction false} LookupAt(fields: seq<(string, Json)>, key: string, k: nat)
    requires k < |fields| && fields[k].0 == key
    requires forall i :: 0 <= i < k ==> fields[i].0 != key
    ensures Lookup(fields, key) == Some(fields[k].1)
    decreases k
  {
    if k > 0 {
      LookupAt(fields[1..], key, k - 1);
    }
  }

  /** `Lookup` finds nothing when no field has the key. */
  lemma {:induction false} LookupMissing(fields: seq<(string, Json)>, key: string)
    requires forall i :: 0 <= i < |fields| ==> fields[i].0 != key
    ensures Lookup(fields, key) == None
    decreases |fields|
  {
    if fields != [] {
      LookupMissing(fields[1..], key);
    }
  }

  /** Every field of an object whose keys are pairwise different can be looked up. */
  lemma LookupDistinct(fields: seq<(string, Json)>)
    requires forall i, j :: 0 <= i < j < |fields| ==> fields[i].0 != fields[j].0
    ensures forall k :: 0 <= k < |fields| ==> Lookup(fields, fields[k].0) == Some(fields[k].1)
  {
    forall k | 0 <= k < |fields| ensures Lookup(fields, fields[k].0) == Some(fields[k].1) {
      LookupAt(fields, fields[k].0, k);
    }
  }

  /** A string field of an object, if present and a string. */
  function StringField(j: Json, key: string): Option<string> {
    if !j.JObject? then None
    else match Lookup(j.fields, key)
      case Some(JString(s)) => Some(s)
      case _ => None
  }

  // ---------------------------------------------------------------- Source files

  function EncodeSourceFile(f: SourceFile): Json {
    JObject([("filename", JString(f.filename)), ("content", JString(f.content))])
  }

  lemma SourceFileRoundTrip(f: SourceFile)
    ensures DecodeSourceFile(EncodeSourceFile(f)) == Some(f)
  {
    var fields := EncodeSourceFile(f).fields;
    LookupAt(fields, "filename", 0);
    assert fields[0].0 != "content" by { assert fields[0].0[0] != "content"[0]; }
    LookupAt(fields, "content", 1);
  }

  function DecodeSourceFile(j: Json): Option<SourceFile> {
    match (StringField(j, "filename"), StringField(j, "content"))
    case (Some(n), Some(c)) => Some(SourceFile(n, c))
    case _ => None
  }

  function EncodeSourceFiles(fs: seq<SourceFile>): (r: seq<Json>)
    ensures |r| == |fs|
    decreases |fs|
  {
    if fs == [] then [] else [EncodeSourceFile(fs[0])] + EncodeSourceFiles(fs[1..])
  }

  function DecodeSourceFiles(js: seq<Json>): Option<seq<SourceFile>>
    decreases |js|
  {
    if js == [] then Some([])
    else match (DecodeSourceFile(js[0]), DecodeSourceFiles(js[1..]))
      case (Some(f), Some(rest)) => Some([f] + rest)
      case _ => None
  }

  lemma {:induction false} SourceFilesRoundTrip(fs: seq<SourceFile>)
    ensures DecodeSourceFiles(EncodeSourceFiles(fs)) == Some(fs)
    decreases |fs|
  {
    if fs != [] {
      var js := EncodeSourceFiles(fs);
      assert js[1..] == EncodeSourceFiles(fs[1..]);
      SourceFilesRoundTrip(fs[1..]);
      SourceFileRoundTrip(fs[0]);
      assert [fs[0]] + fs[1..] == fs;
    }
  }

  // ---------------------------------------------------------------- Payload

  /** Fields in declaration order, as `serde` writes them. */
  function EncodePayload(p: Payload): Json {
    JObject([
      ("user_id", JString(p.userId)),
      ("task", JString(p.task)),
      ("read_me", JString(p.readMe)),
      ("source_files", JArray(EncodeSourceFiles(p.sourceFiles))),
      ("test_results", JString(p.testResults))])
  }

  /** A derived `Deserialize` (and the services' pydantic model): every field
      must be present with the right shape; extra fields are ignored. */
  function DecodePayload(j: Json): Option<Payload> {
    if !j.JObject? then None
    else match (StringField(j, "user_id"), StringField(j, "task"), StringField(j, "read_me"),
                Lookup(j.fields, "source_files"), StringField(j, "test_results"))
      case (Some(u), Some(t), Some(r), Some(JArray(items)), Some(res)) =>
        (match DecodeSourceFiles(items)
         case Some(fs) => Some(Payload(u, t, r, fs, res))
         case None => None)
      case _ => None
  }

  /** `Payload` derives both directions: decoding what was encoded gives the record back. */
  lemma PayloadRoundTrip(p: Payload)
    ensures DecodePayload(EncodePayload(p)) == Some(p)
  {
    var fields := EncodePayload(p).fields;
    LookupDistinct(fields);
    assert Lookup(fields, "user_id") == Some(JString(p.userId)) by { assert fields[0].0 == "user_id"; }
    assert Lookup(fields, "task") == Some(JString(p.task)) by { assert fields[1].0 == "task"; }
    assert Lookup(fields, "read_me") == Some(JString(p.readMe)) by { assert fields[2].0 == "read_me"; }
    assert Lookup(fields, "source_files") == Some(JArray(EncodeSourceFiles(p.sourceFiles))) by {
      assert fields[3].0 == "source_files";
    }
    assert Lookup(fields, "test_results") == Some(JString(p.testResults)) by { assert fields[4].0 == "test_results"; }
    SourceFilesRoundTrip(p.sourceFiles);
  }

  // ---------------------------------------------------------------- Feedback and issues

  function EncodeFeedback(f: FeedbackEntry): Json {
    JObject([
      ("student_id", JString(f.studentId)),
      ("status", JString(f.status)),
      ("feedback", JString(f.feedback))])
  }

  lemma FeedbackRoundTrip(f: FeedbackEntry)
    ensures DecodeFeedback(EncodeFeedback(f)) == Some(f)
  {
    var fields := EncodeFeedback(f).fields;
    LookupDistinct(fields);
    assert fields[0].0 == "student_id" && fields[1].0 == "status" && fields[2].0 == "feedback";
  }

  function DecodeFeedback(j: Json): Option<FeedbackEntry> {
    match (StringField(j, "student_id"), StringField(j, "status"), StringField(j, "feedback"))
    case (Some(s), Some(st), Some(f)) => Some(FeedbackEntry(s, st, f))
    case _ => None
  }

  function EncodeIssue(i: Issue): Json {
    JObject([("title", JString(i.title)), ("body", JString(i.body))])
  }

  lemma IssueRoundTrip(i: Issue)
    ensures DecodeIssue(EncodeIssue(i)) == Some(i)
  {
    var fields := EncodeIssue(i).fields;
    LookupDistinct(fields);
    assert fields[0].0 == "title" && fields[1].0 == "body";
  }

  function DecodeIssue(j: Json): Option<Issue> {
    match (StringField(j, "title"), StringField(j, "body"))
    case (Some(t), Some(b)) => Some(Issue(t, b))
    case _ => None
  }

  // ---------------------------------------------------------------- The four functions

  /** `create_issue`: the issue sent to the tracker carries the title and the
      body it was given, unchanged. */
  function CreateIssue(title: string, body: string): (r: Json)
    ensures DecodeIssue(r) == Some(Issue(title, body))
  {
    IssueRoundTrip(Issue(title, body));
    EncodeIssue(Issue(title, body))
  }

  /** `create_feedback_json`: serialising cannot fail for a record of strings,
      and the encoded entry holds the three inputs unchanged. */
  function CreateFeedbackJson(studentId: string, status: string, feedback: string): (r: Result<Json, string>)
    ensures r.Ok?
    ensures DecodeFeedback(r.value) == Some(FeedbackEntry(studentId, status, feedback))
  {
    FeedbackRoundTrip(FeedbackEntry(studentId, status, feedback));
    Ok(EncodeFeedback(FeedbackEntry(studentId, status, feedback)))
  }

  /** `create_payload_json`: the encoded record decodes to exactly the inputs,
      the source files in the order given. */
  function CreatePayloadJson(userId: string, task: string, readMe: string,
                             sourceFiles: seq<SourceFile>, testResults: string): (r: Result<Json, string>)
    ensures r.Ok?
    ensures DecodePayload(r.value) == Some(Payload(userId, task, readMe, sourceFiles, testResults))
  {
    var p := Payload(userId, task, readMe, sourceFiles, testResults);
    PayloadRoundTrip(p);
    Ok(EncodePayload(p))
  }

  /** `parse_source_file`: the record of a file is its name, verbatim, and the
      whole text that reading it produced; a failed read is an error. The
      read itself is the parameter `read`. */
  function ParseSourceFile<E>(filename: string, read: Result<string, E>): (r: Result<SourceFile, E>)
    ensures r.Ok? <==> read.Ok?
    ensures r.Ok? ==> r.value.filename == filename && r.value.content == read.value
    ensures r.Err? ==> r.error == read.error
  {
    match read
    case Ok(text) => Ok(SourceFile(filename, text))
    case Err(e) => Err(e)
  }
}
