/** The grading services behind the command line tool: each takes a payload,
    asks a language model and turns the model's reply `status: feedback` into
    the verdict the tool reads back. The model is the parameter `ask`; the
    prompt template's text is part of it, and only the values substituted
    into the template are modelled. */
module Graders {
  import opened Wrappers
  import opened Text
  import opened Records
  import Publisher

  // ---------------------------------------------------------------- Prompt

  /** The values substituted into the prompt: the task description, the
      file names joined by `", "`, the contents joined by blank lines, and
      the test report. */
  datatype Prompt = Prompt(readMe: string, fileNames: string, contents: string, testResults: string)

  function Names(files: seq<SourceFile>): (r: seq<string>)
    ensures |r| == |files|
  {
    seq(|files|, i requires 0 <= i < |files| => files[i].filename)
  }

  function Contents(files: seq<SourceFile>): (r: seq<string>)
    ensures |r| == |files|
  {
    seq(|files|, i requires 0 <= i < |files| => files[i].content)
  }

  const NameSeparator: string := ", "
  const ContentSeparator: string := "\n\n"

  function BuildPrompt(readMe: string, files: seq<SourceFile>, testResults: string): Prompt {
    Prompt(readMe, JoinStrings(Names(files), NameSeparator), JoinStrings(Contents(files), ContentSeparator), testResults)
  }

  /** The prompt lists the files in the order of the payload: one more file
      adds its name after a comma and its content after a blank line. */
  lemma BuildPromptAppend(readMe: string, files: seq<SourceFile>, f: SourceFile, testResults: string)
    requires files != []
    ensures BuildPrompt(readMe, files + [f], testResults).fileNames ==
              BuildPrompt(readMe, files, testResults).fileNames + NameSeparator + f.filename
    ensures BuildPrompt(readMe, files + [f], testResults).contents ==
              BuildPrompt(readMe, files, testResults).contents + ContentSeparator + f.content
  {
    assert Names(files + [f]) == Names(files) + [f.filename];
    assert Contents(files + [f]) == Contents(files) + [f.content];
    JoinAppend(Names(files), f.filename, NameSeparator);
    JoinAppend(Contents(files), f.content, ContentSeparator);
  }

  /** A payload with one file puts that file's name and content in the prompt unchanged. */
  lemma BuildPromptSingle(readMe: string, f: SourceFile, testResults: string)
    ensures BuildPrompt(readMe, [f], testResults) == Prompt(readMe, f.filename, f.content, testResults)
  {
    assert Names([f]) == [f.filename];
    assert Contents([f]) == [f.content];
  }

  // ---------------------------------------------------------------- Model reply and verdict

  /** What the language model call yields: the call raised, the answer has
      no choices, or the first choice's content (`None` when it is null). */
  datatype Completion = CallFailed(error: string) | NoChoices | Content(text: Option<string>)

  /** An HTTP error answer: its status code and `detail`. */
  datatype HttpError = HttpError(code: int, detail: string)

  /** The verdict a service sends back; the legacy service has no `task`. */
  datatype Verdict = Verdict(studentId: string, task: Option<string>, status: string, feedback: string)

  function EncodeVerdict(v: Verdict): Json {
    var task := match v.task case Some(t) => [("task", JString(t))] case None => [];
    JObject([("student_id", JString(v.studentId))] + task +
            [("status", JString(v.status)), ("feedback", JString(v.feedback))])
  }

  function DecodeVerdict(j: Json): Option<Verdict> {
    match (StringField(j, "student_id"), StringField(j, "status"), StringField(j, "feedback"))
    case (Some(s), Some(st), Some(f)) => Some(Verdict(s, StringField(j, "task"), st, f))
    case _ => None
  }

  lemma VerdictRoundTrip(v: Verdict)
    ensures DecodeVerdict(EncodeVerdict(v)) == Some(v)
  {
    var fields := EncodeVerdict(v).fields;
    LookupDistinct(fields);
    if v.task.Some? {
      assert fields[0].0 == "student_id" && fields[1].0 == "task" && fields[2].0 == "status" && fields[3].0 == "feedback";
    } else {
      assert fields[0].0 == "student_id" && fields[1].0 == "status" && fields[2].0 == "feedback";
      LookupMissing(fields, "task");
    }
  }

  /** What the command line tool reads from a verdict: every field as sent,
      and `""` for the task when the service leaves it out. */
  lemma VerdictAsRead(v: Verdict)
    ensures Publisher.Field(EncodeVerdict(v), "student_id") == v.studentId
    ensures Publisher.Field(EncodeVerdict(v), "status") == v.status
    ensures Publisher.Field(EncodeVerdict(v), "feedback") == v.feedback
    ensures Publisher.Field(EncodeVerdict(v), "task") == match v.task case Some(t) => t case None => ""
  {
    VerdictRoundTrip(v);
  }

  // ---------------------------------------------------------------- Reading a reply

  /** The text of a completion, `""` when there is none. */
  function ReplyText(c: Completion): string {
    match c
    case Content(Some(t)) => t
    case _ => ""
  }

  /** `status, content = text.split(":", 1)` followed by `status.strip()`:
      the stripped text before the first colon and everything after it;
      `None` when the text holds no colon. */
  function SplitVerdict(text: string): (r: Option<(string, string)>)
    ensures r.None? <==> ':' !in text
    ensures r.Some? ==> ':' !in r.value.0 && PyStrip(r.value.0) == r.value.0
  {
    match SplitOnce(text, ':')
    case None => None
    case Some((before, after)) =>
      TrimKeeps(before, IsPythonWhitespace, ':');
      TrimIdempotent(before, IsPythonWhitespace);
      Some((PyStrip(before), after))
  }

  /** A reply `status:feedback` splits into the stripped status and the
      feedback exactly as written. */
  lemma SplitVerdictRoundTrip(status: string, feedback: string)
    requires ':' !in status
    ensures SplitVerdict(status + ":" + feedback) == Some((PyStrip(status), feedback))
  {
    SplitOnceJoin(status, ':', feedback);
  }

  /** Stripping `status:feedback` as a whole strips the status at its front
      and the feedback at its back, and leaves the colon between them. */
  lemma StripReply(status: string, feedback: string)
    requires ':' !in status
    ensures PyStrip(status + ":" + feedback) ==
              TrimStart(status, IsPythonWhitespace) + ":" + TrimEnd(feedback, IsPythonWhitespace)
    ensures ':' !in TrimStart(status, IsPythonWhitespace)
  {
    TrimAround(status, ':', feedback, IsPythonWhitespace);
    TrimStartKeeps(status, IsPythonWhitespace, ':');
  }

  /** Stripping `status:feedback` as a whole and splitting it gives the
      stripped status, and a feedback that strips to the stripped feedback. */
  lemma StripSplitVerdict(status: string, feedback: string)
    requires ':' !in status
    ensures SplitVerdict(PyStrip(status + ":" + feedback)).Some?
    ensures SplitVerdict(PyStrip(status + ":" + feedback)).value.0 == PyStrip(status)
    ensures PyStrip(SplitVerdict(PyStrip(status + ":" + feedback)).value.1) == PyStrip(feedback)
  {
    var front, back := TrimStart(status, IsPythonWhitespace), TrimEnd(feedback, IsPythonWhitespace);
    StripReply(status, feedback);
    SplitVerdictRoundTrip(front, back);
    TrimAfterTrimStart(status, IsPythonWhitespace);
    TrimAfterTrimEnd(feedback, IsPythonWhitespace);
  }

  // ---------------------------------------------------------------- The OpenAI service

  const InternalErrorPrefix: string := "Internal error: "
  const OpenAiMalformed: string := "Malformed feedback format from OpenAI."

  /** The `/imagi_gpt` endpoint. `templateError` is the message of a failure
      to read the prompt template, if any. */
  function GradeGpt(request: Payload, templateError: Option<string>, ask: Prompt -> Completion): (r: Result<Verdict, HttpError>)
    ensures r.Err? ==> r.error.code == 500 || r.error.code == 502
    ensures r.Ok? ==> r.value.studentId == request.userId && r.value.task == Some(request.task)
    ensures r.Ok? ==> ':' !in r.value.status && PyStrip(r.value.status) == r.value.status
  {
    match templateError
    case Some(e) => Err(HttpError(500, InternalErrorPrefix + e))
    case None =>
      var c := ask(BuildPrompt(request.readMe, request.sourceFiles, request.testResults));
      if c.CallFailed? then Err(HttpError(502, "OpenAI API error: " + c.error))
      else
        match SplitVerdict(ReplyText(c))
        case None => Err(HttpError(500, OpenAiMalformed))
        case Some((status, feedback)) => Ok(Verdict(request.userId, Some(request.task), status, feedback))
  }

  /** The OpenAI service fails exactly when the template cannot be read, the
      call fails (502), or the reply holds no colon (500, malformed). */
  lemma GptFails(request: Payload, templateError: Option<string>, ask: Prompt -> Completion)
    ensures var c := ask(BuildPrompt(request.readMe, request.sourceFiles, request.testResults));
            var r := GradeGpt(request, templateError, ask);
            (r.Err? <==> templateError.Some? || c.CallFailed? || ':' !in ReplyText(c)) &&
            (templateError.None? && c.CallFailed? ==> r.Err? && r.error.code == 502) &&
            (templateError.None? && !c.CallFailed? && ':' !in ReplyText(c) ==> r == Err(HttpError(500, OpenAiMalformed)))
  {
  }

  /** A reply `status:feedback` comes back as the stripped status and the
      feedback exactly as the model wrote it, for the payload's student and task. */
  lemma GptRoundTrip(request: Payload, ask: Prompt -> Completion, status: string, feedback: string)
    requires ':' !in status
    requires ask(BuildPrompt(request.readMe, request.sourceFiles, request.testResults)) == Content(Some(status + ":" + feedback))
    ensures GradeGpt(request, None, ask) == Ok(Verdict(request.userId, Some(request.task), PyStrip(status), feedback))
  {
    var c := ask(BuildPrompt(request.readMe, request.sourceFiles, request.testResults));
    assert ReplyText(c) == status + ":" + feedback;
    SplitVerdictRoundTrip(status, feedback);
    assert SplitVerdict(ReplyText(c)) == Some((PyStrip(status), feedback));
  }

  // ---------------------------------------------------------------- The Gemini service

  const GeminiMalformed: string := "Malformed feedback format from Gemini (expected 'status: feedback')."

  /** The `/grade_gemini` endpoint: like the OpenAI one, but the reply and
      the feedback are stripped as well. */
  function GradeGemini(request: Payload, templateError: Option<string>, ask: Prompt -> Completion): (r: Result<Verdict, HttpError>)
    ensures r.Err? ==> r.error.code == 500 || r.error.code == 502
    ensures r.Ok? ==> r.value.studentId == request.userId && r.value.task == Some(request.task)
    ensures r.Ok? ==> ':' !in r.value.status && PyStrip(r.value.status) == r.value.status
    ensures r.Ok? ==> PyStrip(r.value.feedback) == r.value.feedback
  {
    match templateError
    case Some(e) => Err(HttpError(500, InternalErrorPrefix + e))
    case None =>
      var c := ask(BuildPrompt(request.readMe, request.sourceFiles, request.testResults));
      if c.CallFailed? then Err(HttpError(502, "Gemini API error: " + c.error))
      else
        match SplitVerdict(PyStrip(ReplyText(c)))
        case None => Err(HttpError(500, GeminiMalformed))
        case Some((status, feedback)) =>
          TrimIdempotent(feedback, IsPythonWhitespace);
          Ok(Verdict(request.userId, Some(request.task), status, PyStrip(feedback)))
  }

  /** Stripping the reply never adds or removes a colon, so the Gemini
      service rejects exactly the replies without one. */
  lemma GeminiFails(request: Payload, templateError: Option<string>, ask: Prompt -> Completion)
    ensures var c := ask(BuildPrompt(request.readMe, request.sourceFiles, request.testResults));
            var r := GradeGemini(request, templateError, ask);
            (r.Err? <==> templateError.Some? || c.CallFailed? || ':' !in ReplyText(c)) &&
            (templateError.None? && c.CallFailed? ==> r.Err? && r.error.code == 502) &&
            (templateError.None? && !c.CallFailed? && ':' !in ReplyText(c) ==> r == Err(HttpError(500, GeminiMalformed)))
  {
    var c := ask(BuildPrompt(request.readMe, request.sourceFiles, request.testResults));
    TrimKeeps(ReplyText(c), IsPythonWhitespace, ':');
  }

  /** A reply `status:feedback` comes back as the stripped status and the
      stripped feedback, for the payload's student and task. */
  lemma GeminiRoundTrip(request: Payload, ask: Prompt -> Completion, status: string, feedback: string)
    requires ':' !in status
    requires ask(BuildPrompt(request.readMe, request.sourceFiles, request.testResults)) == Content(Some(status + ":" + feedback))
    ensures GradeGemini(request, None, ask) == Ok(Verdict(request.userId, Some(request.task), PyStrip(status), PyStrip(feedback)))
  {
    var c := ask(BuildPrompt(request.readMe, request.sourceFiles, request.testResults));
    assert ReplyText(c) == status + ":" + feedback;
    StripSplitVerdict(status, feedback);
  }

  // ---------------------------------------------------------------- The legacy service

  /** The legacy `/grade` endpoint's request: `student_id` and no task. */
  datatype LegacyRequest = LegacyRequest(studentId: string, readMe: string, sourceFiles: seq<SourceFile>, testResults: string)

  /** The body of the web framework's answer to an exception no handler catches. */
  const InternalServerError: string := "Internal Server Error"

  /** The legacy endpoint: no guard and no handler, so a failed call, an
      answer without choices and a reply without a colon all end in the
      framework's plain 500 answer. */
  function GradeLegacy(request: LegacyRequest, ask: Prompt -> Completion): (r: Result<Verdict, HttpError>)
    ensures r.Err? ==> r.error == HttpError(500, InternalServerError)
    ensures r.Ok? ==> r.value.studentId == request.studentId && r.value.task == None
  {
    var c := ask(BuildPrompt(request.readMe, request.sourceFiles, request.testResults));
    if c.CallFailed? || c.NoChoices? then Err(HttpError(500, InternalServerError))
    else
      match SplitVerdict(ReplyText(c))
      case None => Err(HttpError(500, InternalServerError))
      case Some((status, feedback)) => Ok(Verdict(request.studentId, None, status, feedback))
  }

  /** Given the same request and the same model reply, where both answer, the
      legacy service parses status and feedback as the OpenAI service does
      and only drops the task; `Field` reads that missing task as `""`. The
      command line tool itself does not post to the legacy service. */
  lemma LegacyMatchesGpt(request: LegacyRequest, task: string, ask: Prompt -> Completion)
    ensures var payload := Payload(request.studentId, task, request.readMe, request.sourceFiles, request.testResults);
            var legacy, gpt := GradeLegacy(request, ask), GradeGpt(payload, None, ask);
            (legacy.Ok? ==> gpt.Ok?) &&
            (gpt.Ok? && !ask(BuildPrompt(request.readMe, request.sourceFiles, request.testResults)).NoChoices? ==> legacy.Ok?)
    ensures var payload := Payload(request.studentId, task, request.readMe, request.sourceFiles, request.testResults);
            var legacy, gpt := GradeLegacy(request, ask), GradeGpt(payload, None, ask);
            legacy.Ok? ==> legacy.value == gpt.value.(task := None) &&
                           Publisher.Field(EncodeVerdict(legacy.value), "task") == ""
  {
    if GradeLegacy(request, ask).Ok? {
      VerdictAsRead(GradeLegacy(request, ask).value);
    }
  }
}
