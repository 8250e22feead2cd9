/** The decisions `send_payload` takes for each graded submission: which
    grading endpoint it posts to, the feedback file it saves, the teacher's
    answers it reads from the terminal, and the issue it files. The grading
    service's answers are the parameter `replies`; the terminal is a script
    of the lines the teacher types. */
module Publisher {
  import opened Wrappers
  import opened Text
  import opened Records
  import opened Roster

  // ---------------------------------------------------------------- Endpoint

  const GeminiEndpoint: string := "http://127.0.0.1:8000/imagi_gemini"
  const OpenAiEndpoint: string := "http://127.0.0.1:8000/imagi_gpt"

  /** The grading endpoint for the chosen model; anything but `gemini`,
      including no choice, selects the OpenAI service. */
  function Endpoint(model: Option<string>): (r: string)
    ensures r == GeminiEndpoint <==> model == Some("gemini")
    ensures r == OpenAiEndpoint <==> model != Some("gemini")
  {
    var name := match model case Some(m) => m case None => "openai";
    assert GeminiEndpoint[|GeminiEndpoint| - 1] != OpenAiEndpoint[|OpenAiEndpoint| - 1];
    match name
    case "gemini" => GeminiEndpoint
    case _ => OpenAiEndpoint
  }

  // ---------------------------------------------------------------- The service's answer

  /** The grading service's answer to one posted payload: an error status
      with its text, or a JSON body. */
  datatype Reply = Failure(text: string) | Success(body: Json)

  /** A string field of the answer, or `""` when it is missing or not a string. */
  function Field(body: Json, key: string): string {
    match StringField(body, key)
    case Some(s) => s
    case None => ""
  }

  /** The name of the feedback file saved for a student. */
  function FeedbackName(studentId: string): string {
    studentId + "_feedback.json"
  }

  lemma FeedbackNameInjective(a: string, b: string)
    ensures FeedbackName(a) == FeedbackName(b) <==> a == b
  {
    if FeedbackName(a) == FeedbackName(b) {
      assert |a| == |b|;
      assert a == FeedbackName(a)[..|a|];
    }
  }

  /** The saved record of an answer: its three fields, unchanged. */
  function FeedbackRecord(body: Json): (r: Json)
    ensures DecodeFeedback(r) == Some(FeedbackEntry(Field(body, "student_id"), Field(body, "status"), Field(body, "feedback")))
  {
    CreateFeedbackJson(Field(body, "student_id"), Field(body, "status"), Field(body, "feedback")).value
  }

  // ---------------------------------------------------------------- Issue bodies

  const TeacherIcon: string := "\U{1F468}\U{200D}\U{1F3EB}"
  const RobotIcon: string := "\U{1F916}"
  const AiHeading: string := RobotIcon + " **AI Suggestions** (optional improvements, not requirements):\n\n"
  const Disclaimer: string := "\n\nNote: These suggestions are meant to help you learn and improve - they are not mandatory requirements that must be completed."
  const NoteHeading: string := TeacherIcon + " **Teacher's note**:\n\n"
  const Rule: string := "\n\n---\n\n"

  /** The body when the teacher adds a note: the trimmed note, a rule, then
      the AI feedback under its heading. */
  function TeacherBody(note: string, ai: string): (r: string)
    ensures StartsWith(r, NoteHeading) && EndsWith(r, ai)
    ensures |NoteHeading| + |RustTrim(note)| <= |r| && r[|NoteHeading|..|NoteHeading| + |RustTrim(note)|] == RustTrim(note)
  {
    NoteBody(RustTrim(note), ai)
  }

  /** The layout of a body with a note `t`, already trimmed. */
  function NoteBody(t: string, ai: string): (r: string)
    ensures StartsWith(r, NoteHeading) && EndsWith(r, ai)
    ensures |NoteHeading| + |t| <= |r| && r[|NoteHeading|..|NoteHeading| + |t|] == t
  {
    var head := NoteHeading + t + Rule;
    Framed(NoteHeading, t, Rule);
    Framed(head, AiHeading, ai);
    var r := head + AiHeading + ai;
    assert r[..|head|] == head;
    assert r[..|NoteHeading|] == head[..|NoteHeading|];
    assert r[|NoteHeading|..|NoteHeading| + |t|] == head[|NoteHeading|..|NoteHeading| + |t|];
    r
  }

  /** The body without a note: the AI feedback between its heading and the
      disclaimer. */
  function AiBody(ai: string): (r: string)
    ensures StartsWith(r, AiHeading) && EndsWith(r, Disclaimer)
    ensures |r| == |AiHeading| + |ai| + |Disclaimer| && r[|AiHeading|..|AiHeading| + |ai|] == ai
  {
    Framed(AiHeading, ai, Disclaimer);
    AiHeading + ai + Disclaimer
  }

  /** Whitespace around the teacher's note never reaches the issue. */
  lemma TeacherBodyTrimsNote(note: string, ai: string)
    ensures TeacherBody(RustTrim(note), ai) == TeacherBody(note, ai)
  {
    TrimIdempotent(note, IsRustWhitespace);
  }

  /** The two kinds of body are told apart by their first character. */
  lemma BodiesDiffer(note: string, ai: string, ai2: string)
    ensures TeacherBody(note, ai) != AiBody(ai2)
  {
    assert TeacherBody(note, ai)[0] == NoteHeading[0];
    assert AiBody(ai2)[0] == AiHeading[0];
  }

  /** The AI feedback can be read back from either body. */
  lemma AiBodyInjective(a: string, b: string)
    ensures AiBody(a) == AiBody(b) <==> a == b
  {
    if AiBody(a) == AiBody(b) {
      assert |a| == |b|;
    }
  }

  // ---------------------------------------------------------------- Reading the script

  /** What `read_line` yields at `pos`: the line, or `""` once input has ended. */
  function LineAt(input: seq<string>, pos: nat): string {
    if pos < |input| then input[pos] else ""
  }

  /** The line trims to `y` or `n`. */
  predicate IsAnswer(line: string) {
    TrimsTo(line, "y") || TrimsTo(line, "n")
  }

  /** The line trims to `DONE`. */
  predicate IsDone(line: string) {
    TrimsTo(line, "DONE")
  }

  /** The first line from `pos` on that answers the y/n question. */
  function AnswerAt(input: seq<string>, pos: nat): (r: Option<nat>)
    ensures r.Some? ==> pos <= r.value < |input| && IsAnswer(input[r.value])
    decreases |input| - pos
  {
    if pos >= |input| then None
    else if IsAnswer(input[pos]) then Some(pos)
    else AnswerAt(input, pos + 1)
  }

  /** The line found is the first answer from `pos` on; when none is found, no line from `pos` on answers. */
  lemma {:induction false} AnswerAtFirst(input: seq<string>, pos: nat)
    ensures AnswerAt(input, pos).Some? ==> forall k :: pos <= k < AnswerAt(input, pos).value ==> !IsAnswer(input[k])
    ensures AnswerAt(input, pos).None? ==> forall k :: pos <= k < |input| ==> !IsAnswer(input[k])
    decreases |input| - pos
  {
    if pos < |input| && !IsAnswer(input[pos]) {
      AnswerAtFirst(input, pos + 1);
    }
  }

  /** The first line from `pos` on that ends the teacher's note. */
  function DoneAt(input: seq<string>, pos: nat): (r: Option<nat>)
    ensures r.Some? ==> pos <= r.value < |input| && IsDone(input[r.value])
    decreases |input| - pos
  {
    if pos >= |input| then None
    else if IsDone(input[pos]) then Some(pos)
    else DoneAt(input, pos + 1)
  }

  /** The line found is the first `DONE` from `pos` on; when none is found, no line from `pos` on is one. */
  lemma {:induction false} DoneAtFirst(input: seq<string>, pos: nat)
    ensures DoneAt(input, pos).Some? ==> forall k :: pos <= k < DoneAt(input, pos).value ==> !IsDone(input[k])
    ensures DoneAt(input, pos).None? ==> forall k :: pos <= k < |input| ==> !IsDone(input[k])
    decreases |input| - pos
  {
    if pos < |input| && !IsDone(input[pos]) {
      DoneAtFirst(input, pos + 1);
    }
  }

  /** The lines from `from` up to `to` appended one after the other, as
      `push_str` does. */
  function Concat(input: seq<string>, lo: nat, hi: nat): string
    requires lo <= hi <= |input|
    decreases hi
  {
    if lo == hi then "" else Concat(input, lo, hi - 1) + input[hi - 1]
  }

  // ---------------------------------------------------------------- One answer

  /** What the teacher's lines decide about one answer. */
  datatype Decision =
    | Hangs                           // input ended inside a prompt loop, which then spins forever
    | Declined                        // the first y/n line says `n`
    | Accepted(note: Option<string>)  // it says `y`; the note, when the teacher chose to write one

  /** The teacher's decision read from `pos` on, and where reading stops. */
  function Dialogue(input: seq<string>, pos: nat): (r: (Decision, nat))
    requires pos <= |input|
    ensures pos <= r.1 <= |input|
  {
    match AnswerAt(input, pos)
    case None => (Hangs, |input|)
    case Some(k) =>
      if TrimsTo(input[k], "n") then (Declined, k + 1)
      else if k + 1 < |input| && TrimsTo(input[k + 1], "y") then
        match DoneAt(input, k + 2)
        case None => (Hangs, |input|)
        case Some(d) => (Accepted(Some(Concat(input, k + 2, d))), d + 1)
      else (Accepted(None), if k + 1 < |input| then k + 2 else |input|)
  }

  /** The answer is accepted exactly when the first y/n line says `y` and,
      if the teacher chose to write a note, a `DONE` line follows. */
  lemma DialogueAccepted(input: seq<string>, pos: nat)
    requires pos <= |input|
    ensures Dialogue(input, pos).0.Accepted? <==>
              AnswerAt(input, pos).Some? && TrimsTo(input[AnswerAt(input, pos).value], "y") &&
              !(AnswerAt(input, pos).value + 1 < |input| && TrimsTo(input[AnswerAt(input, pos).value + 1], "y") &&
                DoneAt(input, AnswerAt(input, pos).value + 2).None?)
  {
    match AnswerAt(input, pos)
    case None =>
    case Some(k) =>
      if TrimsTo(input[k], "y") && TrimsTo(input[k], "n") {
        TrimsToUnique(input[k], "y", "n");
      }
  }

  /** The run hangs exactly when the script ends before a y/n answer, or
      before the `DONE` line of a note the teacher chose to write. */
  lemma DialogueHangs(input: seq<string>, pos: nat)
    requires pos <= |input|
    ensures Dialogue(input, pos).0 == Hangs <==>
              AnswerAt(input, pos).None? ||
              (TrimsTo(input[AnswerAt(input, pos).value], "y") &&
               AnswerAt(input, pos).value + 1 < |input| && TrimsTo(input[AnswerAt(input, pos).value + 1], "y") &&
               DoneAt(input, AnswerAt(input, pos).value + 2).None?)
  {
    match AnswerAt(input, pos)
    case None =>
    case Some(k) =>
      if TrimsTo(input[k], "y") && TrimsTo(input[k], "n") {
        TrimsToUnique(input[k], "y", "n");
      }
  }

  /** A note is exactly the lines typed between the second `y` and the
      first `DONE` after it. */
  lemma DialogueNote(input: seq<string>, pos: nat)
    requires pos <= |input|
    requires Dialogue(input, pos).0.Accepted? && Dialogue(input, pos).0.note.Some?
    ensures var k := AnswerAt(input, pos).value;
            var d := Dialogue(input, pos).1 - 1;
            k + 2 <= d < |input| && IsDone(input[d]) &&
            (forall j :: k + 2 <= j < d ==> !IsDone(input[j])) &&
            Dialogue(input, pos).0.note.value == Concat(input, k + 2, d)
  {
    NoteShape(input, pos);
    DoneAtFirst(input, AnswerAt(input, pos).value + 2);
  }

  /** A note was written: where the answer and the `DONE` line sit. */
  lemma NoteShape(input: seq<string>, pos: nat)
    requires pos <= |input|
    requires Dialogue(input, pos).0.Accepted? && Dialogue(input, pos).0.note.Some?
    ensures AnswerAt(input, pos).Some? && AnswerAt(input, pos).value + 2 <= |input|
    ensures var k := AnswerAt(input, pos).value;
            DoneAt(input, k + 2).Some? &&
            Dialogue(input, pos) == (Accepted(Some(Concat(input, k + 2, DoneAt(input, k + 2).value))), DoneAt(input, k + 2).value + 1)
  {
    var k := AnswerAt(input, pos).value;
    if TrimsTo(input[k], "n") || !(k + 1 < |input| && TrimsTo(input[k + 1], "y")) {
      assert false;
    }
  }

  /** The dialogue once the first answer, a `y`, is known to sit at `k`. */
  lemma DialogueAfterAnswer(input: seq<string>, pos: nat, k: nat)
    requires pos <= |input| && AnswerAt(input, pos) == Some(k) && TrimsTo(input[k], "y")
    ensures k < |input| && !TrimsTo(input[k], "n")
    ensures Dialogue(input, pos) ==
              if k + 1 < |input| && TrimsTo(input[k + 1], "y") then
                match DoneAt(input, k + 2)
                case None => (Hangs, |input|)
                case Some(d) => (Accepted(Some(Concat(input, k + 2, d))), d + 1)
              else (Accepted(None), if k + 1 < |input| then k + 2 else |input|)
  {
    if TrimsTo(input[k], "n") {
      TrimsToUnique(input[k], "y", "n");
    }
  }

  /** What the y/n loop knows once it has read up to `pos`, starting at
      `from`: `response` is the last line read (`""` when nothing was left),
      and the first answer from `from` on is that line or lies further on. */
  ghost predicate Scanned(input: seq<string>, from: nat, pos: nat, response: string) {
    from <= pos <= |input| &&
    if pos == from then pos == |input| && response == ""
    else response == input[pos - 1] &&
         AnswerAt(input, from) == if IsAnswer(response) then Some(pos - 1) else AnswerAt(input, pos)
  }

  lemma ScannedStart(input: seq<string>, from: nat)
    requires from <= |input|
    ensures Scanned(input, from, if from < |input| then from + 1 else from, LineAt(input, from))
  {
  }

  lemma ScannedNext(input: seq<string>, from: nat, pos: nat, response: string)
    requires Scanned(input, from, pos, response) && !IsAnswer(response) && pos < |input|
    ensures Scanned(input, from, pos + 1, input[pos])
  {
  }

  lemma ScannedNone(input: seq<string>, from: nat, pos: nat, response: string)
    requires Scanned(input, from, pos, response) && !IsAnswer(response) && pos >= |input|
    ensures AnswerAt(input, from).None? && pos == |input|
  {
  }

  lemma ScannedSome(input: seq<string>, from: nat, pos: nat, response: string)
    requires Scanned(input, from, pos, response) && IsAnswer(response)
    ensures AnswerAt(input, from) == Some(pos - 1) && response == input[pos - 1]
  {
  }

  /** What happens to one answer of the grading service. */
  datatype Outcome =
    | Rejected(error: string)            // error status: its text is reported, nothing is saved
    | SavedLocally                       // the teacher answered `n`
    | Posted(repo: string, issue: Issue) // the teacher answered `y`
    | Stuck                              // input ended inside a prompt loop

  /** The outcome of a successful answer once the teacher has decided. */
  function Verdict(body: Json, decision: Decision): (r: Outcome)
    ensures r.Posted? <==> decision.Accepted?
    ensures r == Stuck <==> decision == Hangs
    ensures r.Posted? ==> r.repo == RepoName(Field(body, "student_id"), Field(body, "task")) &&
                          r.issue.title == Field(body, "status")
    ensures r.Posted? && decision.note.None? ==> r.issue.body == AiBody(Field(body, "feedback"))
    ensures r.Posted? && decision.note.Some? ==>
              r.issue.body == TeacherBody(decision.note.value, Field(body, "feedback"))
  {
    var ai := Field(body, "feedback");
    match decision
    case Hangs => Stuck
    case Declined => SavedLocally
    case Accepted(note) =>
      var issueBody := match note case None => AiBody(ai) case Some(n) => TeacherBody(n, ai);
      Posted(RepoName(Field(body, "student_id"), Field(body, "task")), Issue(Field(body, "status"), issueBody))
  }

  /** The outcome of one answer and where reading the script stops. */
  function Respond(reply: Reply, input: seq<string>, pos: nat): (r: (Outcome, nat))
    requires pos <= |input|
    ensures pos <= r.1 <= |input|
    ensures reply.Failure? ==> r == (Rejected(reply.text), pos)
    ensures reply.Success? ==> r == (Verdict(reply.body, Dialogue(input, pos).0), Dialogue(input, pos).1)
  {
    match reply
    case Failure(text) => (Rejected(text), pos)
    case Success(body) =>
      var (decision, next) := Dialogue(input, pos);
      (Verdict(body, decision), next)
  }

  // ---------------------------------------------------------------- The terminal session

  /** The state `send_payload` changes: the script it reads, the feedback
      files it saves in the output directory, and the issues it files. */
  class Session {
    /** The lines the teacher types, each as `read_line` returns it. */
    var input: seq<string>
    /** How many lines have been read. */
    var pos: nat
    /** The output directory's feedback files, by name. */
    var saved: map<string, Json>
    /** The issues filed so far, with their repositories. */
    var posted: seq<(string, Json)>

    predicate Valid()
      reads this
    {
      pos <= |input|
    }

    constructor (script: seq<string>)
      ensures Valid() && input == script && pos == 0 && saved == map[] && posted == []
    {
      input, pos, saved, posted := script, 0, map[], [];
    }

    /** `read_line`: the next line, or `""` without moving once input has ended. */
    method ReadLine() returns (line: string)
      requires Valid()
      modifies this
      ensures Valid() && input == old(input) && saved == old(saved) && posted == old(posted)
      ensures line == LineAt(input, old(pos))
      ensures pos == if old(pos) < |input| then old(pos) + 1 else old(pos)
    {
      if pos < |input| {
        line := input[pos];
        pos := pos + 1;
      } else {
        line := "";
      }
    }

    /** The y/n loop: re-reads until a line trims to `y` or `n`. At the end
        of input every further read is empty, so the loop would spin forever;
        that is reported as `None`. */
    method Confirm() returns (answer: Option<bool>)
      requires Valid()
      modifies this
      ensures Valid() && input == old(input) && saved == old(saved) && posted == old(posted)
      ensures match AnswerAt(input, old(pos))
              case None => answer.None? && pos == |input|
              case Some(k) => answer == Some(TrimsTo(input[k], "y")) && pos == k + 1
    {
      var response := ReadLine();
      ScannedStart(input, old(pos));
      while !IsAnswer(response)
        invariant Valid() && input == old(input) && saved == old(saved) && posted == old(posted)
        invariant Scanned(input, old(pos), pos, response)
        decreases |input| - pos
      {
        if pos >= |input| {
          ScannedNone(input, old(pos), pos, response);
          return None;
        }
        ScannedNext(input, old(pos), pos, response);
        response := ReadLine();
      }
      ScannedSome(input, old(pos), pos, response);
      answer := Some(TrimsTo(response, "y"));
    }

    /** The note loop: appends lines until one trims to `DONE`; `None` when
        input ends first, where the source would wait forever. */
    method TeacherNote() returns (note: Option<string>)
      requires Valid()
      modifies this
      ensures Valid() && input == old(input) && saved == old(saved) && posted == old(posted)
      ensures match DoneAt(input, old(pos))
              case None => note.None? && pos == |input|
              case Some(d) => note == Some(Concat(input, old(pos), d)) && pos == d + 1
    {
      var feedback := "";
      while true
        invariant Valid() && input == old(input) && saved == old(saved) && posted == old(posted)
        invariant old(pos) <= pos
        invariant feedback == Concat(input, old(pos), pos)
        invariant DoneAt(input, old(pos)) == DoneAt(input, pos)
        decreases |input| - pos
      {
        if pos >= |input| {
          return None;
        }
        var line := ReadLine();
        if TrimsTo(line, "DONE") {
          break;
        }
        feedback := feedback + line;
      }
      note := Some(feedback);
    }

    /** The teacher's side of one answer: the y/n question, then, after a
        `y`, whether to add a note and the note itself. */
    method Decide() returns (decision: Decision)
      requires Valid()
      modifies this
      ensures Valid() && input == old(input) && saved == old(saved) && posted == old(posted)
      ensures (decision, pos) == Dialogue(input, old(pos))
    {
      var response := Confirm();
      if response.None? {
        return Hangs;
      }
      if !response.value {
        return Declined;
      }
      var k := AnswerAt(input, old(pos)).value;
      DialogueAfterAnswer(input, old(pos), k);
      var teacherResponse := ReadLine();
      if TrimsTo(teacherResponse, "y") {
        var note := TeacherNote();
        if note.None? {
          return Hangs;
        }
        decision := Accepted(note);
      } else {
        decision := Accepted(None);
      }
    }

    /** One answer of the grading service: the feedback file is saved
        before any question is asked; then the teacher decides. */
    method Handle(reply: Reply) returns (outcome: Outcome)
      requires Valid()
      modifies this
      ensures Valid() && input == old(input)
      ensures (outcome, pos) == Respond(reply, input, old(pos))
      ensures saved == match reply
                       case Failure(_) => old(saved)
                       case Success(body) => old(saved)[FeedbackName(Field(body, "student_id")) := FeedbackRecord(body)]
      ensures posted == old(posted) + Filed([outcome])
    {
      match reply
      case Failure(text) =>
        outcome := Rejected(text);
      case Success(body) =>
        var studentId, task := Field(body, "student_id"), Field(body, "task");
        var status, aiFeedback := Field(body, "status"), Field(body, "feedback");
        var feedbackJson := CreateFeedbackJson(studentId, status, aiFeedback);
        saved := saved[FeedbackName(studentId) := feedbackJson.value];
        var decision := Decide();
        match decision
        case Hangs =>
          outcome := Stuck;
        case Declined =>
          outcome := SavedLocally;
        case Accepted(note) =>
          var complete := match note
                          case Some(n) => TeacherBody(n, aiFeedback)
                          case None => AiBody(aiFeedback);
          var repo := RepoName(studentId, task);
          posted := posted + [(repo, CreateIssue(status, complete))];
          outcome := Posted(repo, Issue(status, complete));
    }

    /** The loop over the payload files, one answer each, in the order the
        directory lists them; a prompt that hangs ends the run there. */
    method Publish(replies: seq<Reply>) returns (outcomes: seq<Outcome>)
      requires Valid()
      modifies this
      ensures Valid() && input == old(input)
      ensures (outcomes, pos) == Run(replies, input, old(pos))
      ensures saved == SaveAll(old(saved), replies[..|outcomes|])
      ensures posted == old(posted) + Filed(outcomes)
    {
      outcomes := [];
      var i := 0;
      while i < |replies|
        invariant Valid() && input == old(input) && 0 <= i <= |replies|
        invariant Ran(replies, i, input, old(pos), old(saved), old(posted), outcomes, pos, saved, posted)
        invariant Stuck !in outcomes
      {
        ghost var (before, p, s, f) := (outcomes, pos, saved, posted);
        var outcome := Handle(replies[i]);
        RanStep(replies, i, input, old(pos), old(saved), old(posted), before, p, s, f, outcome, pos, saved, posted);
        outcomes := outcomes + [outcome];
        i := i + 1;
        if outcome == Stuck {
          RunStaysStuck(replies, i, input, old(pos));
          return;
        }
      }
      assert replies[..i] == replies;
    }
  }

  /** The issues filed for a run's outcomes, as they are sent. */
  function Filed(outcomes: seq<Outcome>): seq<(string, Json)>
    decreases |outcomes|
  {
    if outcomes == [] then []
    else
      var last := outcomes[|outcomes| - 1];
      Filed(outcomes[..|outcomes| - 1]) +
        match last
        case Posted(repo, issue) => [(repo, CreateIssue(issue.title, issue.body))]
        case _ => []
  }

  lemma FiledAppend(outcomes: seq<Outcome>, o: Outcome)
    ensures Filed(outcomes + [o]) == Filed(outcomes) + Filed([o])
  {
    assert (outcomes + [o])[..|outcomes|] == outcomes;
  }

  /** The feedback files after the answers in `replies` have been saved. */
  function SaveAll(saved: map<string, Json>, replies: seq<Reply>): map<string, Json>
    decreases |replies|
  {
    if replies == [] then saved
    else
      var before := SaveAll(saved, replies[..|replies| - 1]);
      match replies[|replies| - 1]
      case Failure(_) => before
      case Success(body) => before[FeedbackName(Field(body, "student_id")) := FeedbackRecord(body)]
  }

  /** The outcomes of a run over `replies` and where reading the script
      stops; a hanging prompt ends the run. */
  function Run(replies: seq<Reply>, input: seq<string>, pos: nat): (r: (seq<Outcome>, nat))
    requires pos <= |input|
    ensures pos <= r.1 <= |input| && |r.0| <= |replies|
    decreases |replies|
  {
    if replies == [] then ([], pos)
    else
      var (outcomes, p) := Run(replies[..|replies| - 1], input, pos);
      if Stuck in outcomes then (outcomes, p)
      else
        var (o, q) := Respond(replies[|replies| - 1], input, p);
        (outcomes + [o], q)
  }

  /** One more reply after a run that has not hung: it is answered from
      where the run stopped reading, and its feedback file is saved. */
  lemma RunStep(replies: seq<Reply>, i: nat, input: seq<string>, pos: nat)
    requires pos <= |input| && i < |replies|
    requires Stuck !in Run(replies[..i], input, pos).0
    ensures var (outcomes, p) := Run(replies[..i], input, pos);
            var (o, q) := Respond(replies[i], input, p);
            Run(replies[..i + 1], input, pos) == (outcomes + [o], q)
    ensures forall saved: map<string, Json> {:trigger SaveAll(saved, replies[..i + 1])} ::
              SaveAll(saved, replies[..i + 1]) ==
                match replies[i]
                case Failure(_) => SaveAll(saved, replies[..i])
                case Success(body) => SaveAll(saved, replies[..i])[FeedbackName(Field(body, "student_id")) := FeedbackRecord(body)]
  {
    assert replies[..i + 1][..i] == replies[..i];
  }

  /** The state after the first `i` replies have been handled from `from`:
      the run's outcomes and reading position, the feedback files saved and
      the issues filed. */
  ghost predicate Ran(replies: seq<Reply>, i: nat, input: seq<string>, from: nat,
                      saved0: map<string, Json>, posted0: seq<(string, Json)>,
                      outcomes: seq<Outcome>, pos: nat, saved: map<string, Json>, posted: seq<(string, Json)>)
  {
    from <= |input| && i <= |replies| &&
    (outcomes, pos) == Run(replies[..i], input, from) && |outcomes| == i &&
    saved == SaveAll(saved0, replies[..i]) &&
    posted == posted0 + Filed(outcomes)
  }

  /** Handling reply `i` after a run that has not hung extends the state by that reply. */
  lemma RanStep(replies: seq<Reply>, i: nat, input: seq<string>, from: nat,
                saved0: map<string, Json>, posted0: seq<(string, Json)>,
                outcomes: seq<Outcome>, pos: nat, saved: map<string, Json>, posted: seq<(string, Json)>,
                o: Outcome, pos': nat, saved': map<string, Json>, posted': seq<(string, Json)>)
    requires i < |replies| && Stuck !in outcomes
    requires Ran(replies, i, input, from, saved0, posted0, outcomes, pos, saved, posted)
    requires (o, pos') == Respond(replies[i], input, pos)
    requires saved' == match replies[i]
                       case Failure(_) => saved
                       case Success(body) => saved[FeedbackName(Field(body, "student_id")) := FeedbackRecord(body)]
    requires posted' == posted + Filed([o])
    ensures Ran(replies, i + 1, input, from, saved0, posted0, outcomes + [o], pos', saved', posted')
  {
    RunStep(replies, i, input, from);
    FiledAppend(outcomes, o);
  }

  /** Once a prompt hangs, later replies are never handled. */
  lemma {:induction false} RunStaysStuck(replies: seq<Reply>, i: nat, input: seq<string>, pos: nat)
    requires pos <= |input| && i <= |replies|
    requires Stuck in Run(replies[..i], input, pos).0
    ensures Run(replies, input, pos) == Run(replies[..i], input, pos)
    decreases |replies|
  {
    if i < |replies| {
      var init := replies[..|replies| - 1];
      assert init[..i] == replies[..i];
      RunStaysStuck(init, i, input, pos);
    } else {
      assert replies[..i] == replies;
    }
  }

  /** A run answers every reply in order, unless a prompt hangs: then the
      hanging answer is the last one handled. */
  lemma {:induction false} RunShape(replies: seq<Reply>, input: seq<string>, pos: nat)
    requires pos <= |input|
    ensures var outcomes := Run(replies, input, pos).0;
            (|outcomes| == |replies| && Stuck !in outcomes) ||
            (outcomes != [] && outcomes[|outcomes| - 1] == Stuck && Stuck !in outcomes[..|outcomes| - 1])
    decreases |replies|
  {
    if replies != [] {
      RunShape(replies[..|replies| - 1], input, pos);
      var (outcomes, p) := Run(replies[..|replies| - 1], input, pos);
      if Stuck !in outcomes {
        var o := Respond(replies[|replies| - 1], input, p).0;
        assert (outcomes + [o])[..|outcomes|] == outcomes;
      }
    }
  }

  /** Every reply that is answered at all has its feedback file saved,
      holding the answer's three fields. */
  lemma {:induction false} SaveAllHolds(saved: map<string, Json>, replies: seq<Reply>, i: nat)
    requires i < |replies| && replies[i].Success?
    requires forall j :: i < j < |replies| && replies[j].Success? ==>
               Field(replies[j].body, "student_id") != Field(replies[i].body, "student_id")
    ensures var name := FeedbackName(Field(replies[i].body, "student_id"));
            name in SaveAll(saved, replies) &&
            DecodeFeedback(SaveAll(saved, replies)[name]) ==
              Some(FeedbackEntry(Field(replies[i].body, "student_id"), Field(replies[i].body, "status"),
                                 Field(replies[i].body, "feedback")))
    decreases |replies|
  {
    var init := replies[..|replies| - 1];
    if i < |replies| - 1 {
      assert init[i] == replies[i];
      SaveAllHolds(saved, init, i);
      var last := replies[|replies| - 1];
      if last.Success? {
        FeedbackNameInjective(Field(last.body, "student_id"), Field(replies[i].body, "student_id"));
      }
    }
  }
}
