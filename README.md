# IMAGI grading pipeline — a Dafny model

IMAGI grades student programming submissions. A Rust command line tool:

- clones each student's repository;
- stages the course's unit tests and JUnit libraries into the student's source directory;
- compiles the directory and runs the tests;
- packs the graded sources, the task description and the test report into a JSON payload per student;
- posts each payload to a local grading service backed by a language model (OpenAI or Gemini);
- shows the verdict to the teacher and, on their word, files it as an issue in the student's repository.

A separate command reads the issue titles back and tabulates each student's status.

This project models that core and proves what it promises:

| File | Module | What it models |
|---|---|---|
| `records.dfy` | `Records` | The JSON records of `src/json_parser.rs`, with encoders and decoders that round-trip. |
| `text.dfy` | `Text` | The string operations the code relies on: Rust `trim`, `trim_end_matches`, `contains`, `to_uppercase`; Python `strip`, `join`, `split(":", 1)`. |
| `file_names.dfy` | `FileNames` | The file-name tests, and the two selections over a directory listing: `transform_contents` and `find_test_classes`. |
| `staging.dfy` | `Staging` | Steps 1–3 of `run_java_tests` stated on directory values. |
| `pipeline.dfy` | `Pipeline` | The workspace class whose methods stage a directory in place, run the harness and write the payload records of `create_payload`. |
| `roster.dfy` | `Roster` | Student-list parsing, and the repository name, clone URL and manifest entry of `clone_repos`. |
| `issue_status.dfy` | `IssueStatus` | `check_issues`: keyword matching on issue titles and the status table. |
| `publisher.dfy` | `Publisher` | `send_payload`: endpoint choice, saved feedback, the teacher's terminal dialogue read as a script of lines, and the issues filed. |
| `graders.dfy` | `Graders` | The three Python grading endpoints and how they parse the model's `status: feedback` reply. |

The model follows the code where the design description and the code disagree:

- **Which student files are moved aside.** Step 1 of staging moves files whose name *contains* `Test.java`. A student's `FooTests.java` therefore stays in place and is compiled and run (`FileNames.TestsFileStaysAndRuns`).
- **Which files are graded.** A graded source is any regular file whose name contains `java` and not `Test`, not only files with the `.java` extension.
- **Failures stop the whole batch.** Any staging, compile, read or write failure in `create_payload` ends the whole run through `?`. It does not skip just that one submission.
- **Re-staging overwrites held tests.** Staging a directory a second time moves the canonical copies of the tests into `student_tests/`, over the student's own files (`Staging.RestageReplacesHeldTests`).
- **`KOMPLETTERING` is never recorded.** In `check_issues` it is never a status, because `KOMP` is tried first and is a prefix of it (`IssueStatus.KomplitteringNeverClassified`).
- **The Gemini endpoint paths differ.** The tool posts Gemini requests to `/imagi_gemini`, but the Gemini service serves `/grade_gemini`. Each side is modelled as written.
- **The legacy service is not connected to the tool.** `AI_api/api.py` serves `/grade` and expects `student_id`. The tool posts only to `/imagi_gpt` or `/imagi_gemini` (`Publisher.Endpoint`), and its payload carries `user_id`. `Graders.LegacyMatchesGpt` therefore relates the two services as functions only. The legacy verdict is the OpenAI one without its `task` field, and reading that field with `Field` would give `""`.
- **End of input hangs the dialogue.** If the teacher's input ends inside the y/n loop or the `DONE` loop, `read_line` keeps returning an empty line and the loop never ends. The model reports this as `Hangs`/`Stuck` and stops the run there.

Directory enumeration (`fs::read_dir`) and `HashMap` iteration are modelled as an order the caller cannot rely on (`Collections.Enumerate`). Every contract about them holds for any order.

## Model

| member | source | states |
|---|---|---|
| Records.SourceFileRoundTrip | src/json_parser.rs:14-19 | decoding an encoded `SourceFile` gives it back |
| Records.SourceFilesRoundTrip | src/json_parser.rs:5-19 | a list of source files round-trips through its JSON array, in order |
| Records.PayloadRoundTrip | src/json_parser.rs:5-12 | decoding an encoded `Payload` gives back all five fields |
| Records.FeedbackRoundTrip | src/json_parser.rs:21-26 | a `FeedbackEntry` round-trips |
| Records.IssueRoundTrip | src/json_parser.rs:28-32 | an `Issue` round-trips |
| Records.CreateIssue | src/json_parser.rs:34-36 | the issue decodes to exactly the title and body given |
| Records.CreateFeedbackJson | src/json_parser.rs:38-52 | never fails; the record decodes to the three inputs unchanged |
| Records.CreatePayloadJson | src/json_parser.rs:54-74 | never fails; the record decodes to exactly the inputs, source files in the order given |
| Records.ParseSourceFile | src/json_parser.rs:76-86 | succeeds iff the read succeeds; then the name is verbatim and the content is the whole text read; otherwise the read's error is passed on |
| Collections.Enumerate | src/github_api.rs:159 | lists every element of the collection exactly once, in some order |
| Paths.Join | src/github_api.rs:145-147 | `pop` undoes `join`, and the joined name is the new file name |
| Paths.Pop | src/github_api.rs:146-150 | drops exactly the last component; an empty path stays empty |
| Text.TrimPadded | src/github_api.rs:35 | trimming returns the unique core that neither starts nor ends with whitespace and is surrounded only by whitespace |
| Text.TrimIdempotent | src/github_api.rs:35 | trimming twice is trimming once |
| Text.TrimKeeps | AI_api/geminiAPI.py:66-67 | a non-whitespace character is in the trimmed text iff it is in the text |
| Text.TrimsToTrim | src/github_api.rs:527 | the line-by-line test `TrimsTo(s, w)` holds iff `s.trim() == w` |
| Text.TrimsToUnique | src/github_api.rs:536 | a line trims to at most one word, so `y` and `n` exclude each other |
| Text.TrimEndMatchesStrips | src/github_api.rs:191 | `trim_end_matches` keeps a prefix and removes only whole copies of the pattern |
| Text.TrimAround | AI_api/geminiAPI.py:66-71 | stripping `a:b` strips the front of `a` and the back of `b` and keeps the colon |
| Text.JoinAppend | AI_api/gptAPI.py:49-50 | joining one more part appends the separator and the part |
| Text.FirstIndex | AI_api/gptAPI.py:75 | the index found holds the character and none before it does; `None` iff it does not occur |
| Text.SplitOnce | AI_api/gptAPI.py:75 | `None` iff no separator; otherwise the head, separator and tail rebuild the text, and the head has no separator |
| Text.SplitOnceJoin | AI_api/gptAPI.py:75 | splitting `a + sep + b` with `sep` not in `a` gives back `(a, b)` |
| Text.ToUpperIdempotent | src/github_api.rs:715 | upper-casing twice is upper-casing once |
| Text.ContainsToUpper | src/github_api.rs:715-719 | if a title contains a keyword in any casing, its upper-cased form contains the upper-cased keyword |
| FileNames.ClassNameOfTestFile | src/github_api.rs:189-192 | a test file's class name plus `.java` is the file name, and it still ends in `Test` or `Tests` |
| FileNames.ClassNameInjective | src/github_api.rs:189-192 | different test files give different class names |
| FileNames.StudentTestNotGraded | src/github_api.rs:77 | a file moved aside in step 1 is never graded |
| FileNames.CanonicalJavaTestIsStudentTest | src/github_api.rs:214 | a `...Test.java` file is both moved by step 1 and run as a test class |
| FileNames.JarIsNotTest | src/github_api.rs:236-257 | a `.jar` is neither a canonical test file nor a test class |
| FileNames.TestsFileStaysAndRuns | src/github_api.rs:189-214 | `FooTests.java` is not moved by step 1 but is run as a test class |
| FileNames.GradedUpToSpec | src/github_api.rs:72-83 | the names selected from the first `n` entries are exactly their graded regular files, each once |
| FileNames.GradedNames | src/github_api.rs:72-83 | a name is selected iff it is a listed regular file that is a graded source; distinct when the listing is |
| FileNames.TestClassesUpToSpec | src/github_api.rs:184-197 | the classes from the first `n` entries are exactly the class names of their test files, each once |
| FileNames.TestClassesMembers | src/github_api.rs:184-197 | a class is returned iff its `.java` file is a listed regular test file |
| FileNames.TestClasses | src/github_api.rs:182-198 | a class is returned iff `<class>.java` is a listed test file; every class ends in `Test` or `Tests`; no repeats |
| FileNames.SelectSources | src/github_api.rs:72-84 | the loop selects exactly `GradedNames`, with each path being the directory joined with the name at the same index |
| FileNames.SelectTestClasses | src/github_api.rs:184-197 | the loop returns exactly `TestClasses` of the listing |
| Staging.MoveAside | src/github_api.rs:205-228 | every student test is moved into `student_tests/` unchanged and no test stays behind; other files stay unchanged; a regular file named `student_tests` fails the step and changes nothing |
| Staging.CopyIn | src/github_api.rs:230-263 | exactly the selected files of the source are added, replacing same-named files; others are kept; an unreadable source is `NotFound` and changes nothing |
| Staging.StageValid | src/github_api.rs:205-263 | staging never makes `student_tests` both a file and the held directory |
| Staging.StagedTestFilesAreCanonical | src/github_api.rs:205-249 | after staging, every `...Test.java` is the canonical copy from the test directory |
| Staging.GradedSourcesSurvive | src/github_api.rs:161-164 | a graded file is still present after staging, unchanged unless a test or library of the same name replaced it |
| Staging.StagedFiles | src/github_api.rs:205-263 | the staged files are the non-test files, overlaid by the canonical tests, then by the libraries |
| Staging.RestageFiles | src/github_api.rs:205-263 | staging a second time succeeds and leaves the same regular files |
| Staging.RestageReplacesHeldTests | src/github_api.rs:221-227 | the first staging holds the student's test; a second one replaces it with the canonical copy |
| Pipeline.CopiedFromListed | src/github_api.rs:231-249 | copying one listed file at a time brings in exactly the selected listed files |
| Pipeline.StageAtSteps | src/github_api.rs:205-263 | staging a workspace is the three steps in order, and the first error stops it |
| Pipeline.GradedNamesSurvive | src/github_api.rs:161-164 | every file chosen before staging is still a regular file of the staged directory |
| Pipeline.SubmissionPayload | src/github_api.rs:159-173 | a built record carries the key, task and description, and each graded file once, with its text as read after staging |
| Pipeline.Harness | src/github_api.rs:265-290 | fails with "Java compilation failed" iff `javac` fails; otherwise the result is stdout, a newline, then stderr |
| Pipeline.CollectStudentTests | src/github_api.rs:209-219 | collects exactly the listed regular files whose names contain `Test.java`, each once |
| Pipeline.CollectedAreSelected | src/github_api.rs:209-228 | what step 1 collects is exactly what `MoveAside` moves |
| Pipeline.RenameAdvance | src/github_api.rs:224-227 | each rename moves the next name, which is still in place, into the held directory |
| Pipeline.SourcesOf | src/github_api.rs:163-166 | one record per chosen name, in order, with that file's content |
| Pipeline.PayloadPathsMember | src/github_api.rs:174-176 | a key's record path is among those written iff the key is |
| Pipeline.PayloadPathInjective | src/github_api.rs:174-175 | two students never share a record file |
| Pipeline.TaskNameOfClonedSource | src/github_api.rs:144-156 | for `<out>/<task>/<repo>/src` the derived task is `<task>` and the description is `<repo>/README.md` |
| Pipeline.LoopedNext | src/github_api.rs:159-177 | a stored turn extends the loop: the turns chain from workspace to workspace, and the written records grow by exactly the new key's file while every earlier record is kept |
| Pipeline.LoopedStops | src/github_api.rs:159-177 | the first turn whose build or write fails ends the run with that error; the records of the earlier turns stay written and no later key is tried |
| Pipeline.RanBuilt | src/github_api.rs:159-176 | every record the loop stored decodes to a payload with its key, the shared task and README, and each graded file of its directory as listed before the turn, with the text the staged directory holds; its test results are the output of compiling the staged directory and running exactly the test classes of that staged directory, found from one enumeration of it |
| Pipeline.Workspace.ReadDir | src/github_api.rs:72 | a missing directory is `NotFound`; otherwise each regular file and the held directory is listed once |
| Pipeline.Workspace.TransformContents | src/github_api.rs:67-85 | the names are the graded files of the directory, each once, with aligned paths; a missing directory is `NotFound` |
| Pipeline.Workspace.FindTestClasses | src/github_api.rs:182-198 | returns the class names of exactly the directory's test files, each once |
| Pipeline.Workspace.MoveStudentTests | src/github_api.rs:205-228 | the in-place step 1 leaves exactly the workspace and error of `MoveAt` |
| Pipeline.Workspace.MoveCollected | src/github_api.rs:221-228 | nothing to move changes nothing; otherwise it creates `student_tests/` and moves the collected files, as `MoveAside` does |
| Pipeline.Workspace.RenameInto | src/github_api.rs:224-227 | the renamed files leave the directory for the held one; nothing else changes |
| Pipeline.Workspace.CopyInto | src/github_api.rs:230-263 | the in-place steps 2 and 3 leave exactly the workspace and error of `CopyAt` |
| Pipeline.Workspace.CopyListed | src/github_api.rs:231-249 | the target gains exactly the selected listed files; other directories are untouched |
| Pipeline.Workspace.StageInPlace | src/github_api.rs:205-263 | in-place staging equals `StageAt` on the old workspace |
| Pipeline.Workspace.RunJavaTests | src/github_api.rs:201-291 | the new workspace and result are `TestRun` of the old: staging error, then compile error, then the test output |
| Pipeline.Workspace.GradeOne | src/github_api.rs:160-173 | one turn of `create_payload` equals `Submission` on the old workspace; the graded names come from one enumeration of the directory before staging, and on success the test classes come from one enumeration of the staged directory |
| Pipeline.Workspace.ReadSources | src/github_api.rs:163-166 | each record is its file's name and content, in order; when all files exist the result is `SourcesOf` |
| Pipeline.Workspace.WriteRecord | src/github_api.rs:176 | fails with exactly the error the file system reports for the path, and then writes nothing; otherwise replaces the record at the path and changes nothing else |
| Pipeline.Workspace.GradeAndWrite | src/github_api.rs:160-176 | the new workspace and the built record or error are `Submission` on the old workspace, with the test classes enumerated from the staged directory; the result is the build's error, else the write's error, else the record, which is then written at `<key>.json` and decodes back to it; no other record changes |
| Pipeline.Workspace.WriteRecords | src/github_api.rs:159-177 | `Ran`: each turn is `Submission` on the workspace the previous turn left, and a turn that built a record ran the staged directory's own test classes; starting from the old one and ending in the new one; every stored turn's record is written and decodes to its payload; success iff every key is stored; otherwise the error is the first failing turn's, and no later key is tried |
| Pipeline.Workspace.CreatePayload | src/github_api.rs:135-179 | every manifest key is visited once; an unreadable README of the first entry, or a refused output directory, fails before anything is staged or written; otherwise the task is derived from the first entry's path, the README is its text, and the loop runs as `Ran` states |
| Roster.StudentsComplete | src/github_api.rs:34-40 | every line that is, trimmed, non-empty and not a `#` comment yields its trimmed text |
| Roster.StudentsSound | src/github_api.rs:34-40 | every student comes from such a line |
| Roster.StudentsTrimmed | src/github_api.rs:35-36 | every student is trimmed, non-empty and not a comment |
| Roster.StudentsIdempotent | src/github_api.rs:34-40 | parsing the parsed list again gives the same list |
| Roster.ParseStudents | src/github_api.rs:34-40 | the loop returns `Students(lines)` |
| Roster.RepoNameInjective | src/github_api.rs:49 | for one task, repository names are equal iff the students are |
| Roster.CloneUrlShape | src/github_api.rs:45-48 | the URL is the base URL, the repository name and `.git`, so the repository name can be read back from it |
| Roster.SourceDirNames | src/github_api.rs:43-56 | the recorded source directory yields the task and the repository's README for `create_payload` |
| Roster.SourceDirInjective | src/github_api.rs:50-56 | different students get different source directories |
| Roster.BuildManifest | src/github_api.rs:46-58 | one entry per student, holding that student's source directory, and one clone URL per student in order |
| Roster.ManifestTask | src/github_api.rs:56-57 | each manifest entry yields the task, and no two entries share a directory |
| IssueStatus.KeywordsUpper | src/github_api.rs:698-716 | the keywords are already upper case |
| IssueStatus.FirstFromSpec | src/github_api.rs:713-726 | the keyword search finds nothing iff no keyword from `j` on occurs, and finds only an occurring keyword |
| IssueStatus.ClassifyNone | src/github_api.rs:712-726 | a title yields no status iff none of the keywords occurs in its upper-cased form |
| IssueStatus.ClassifyIgnoresCase | src/github_api.rs:715-719 | classifying ignores the title's case |
| IssueStatus.ClassifyFindsKeyword | src/github_api.rs:715-719 | a title holding a keyword in any casing yields a status |
| IssueStatus.KomplitteringNeverClassified | src/github_api.rs:698-725 | `KOMPLETTERING` is never a title's status |
| IssueStatus.MatchKeyword | src/github_api.rs:713-726 | the keyword loop returns the first keyword, in order, that occurs in the upper-cased title |
| IssueStatus.MatchesUpToRows | src/github_api.rs:712-727 | at most one row per title, each the student's and never `KOMPLETTERING` |
| IssueStatus.MatchesEmpty | src/github_api.rs:712-733 | no matching rows iff no title matches |
| IssueStatus.StudentRowsRecorded | src/github_api.rs:711-733 | every row is the student's, with a keyword other than `KOMPLETTERING`, or `NULL` |
| IssueStatus.StudentRowsCount | src/github_api.rs:711-733 | a student always has at least one row and never more than one per issue |
| IssueStatus.StudentRowsNull | src/github_api.rs:729-733 | the `NULL` row appears iff no title matched, and then alone |
| IssueStatus.StudentIssues | src/github_api.rs:708-733 | the per-student loop with its flag returns `StudentRows` |
| IssueStatus.TableOk | src/github_api.rs:691-738 | a table is produced iff every student's listing succeeds |
| IssueStatus.TableErr | src/github_api.rs:734-737 | a failed table reports the status line of the first failing listing |
| IssueStatus.TableErrStays | src/github_api.rs:734-737 | once a listing fails, later students do not change the result |
| IssueStatus.TableRows | src/github_api.rs:691-738 | every row of a produced table is a listed student's, with a recordable status |
| IssueStatus.CheckStudents | src/github_api.rs:691-738 | the loop over students returns `Table`, stopping at the first failed listing |
| IssueStatus.CheckIssues | src/github_api.rs:674-738 | `check_issues` is `Table` of the parsed student list |
| IssueStatus.TableEmoji | src/github_api.rs:745-751 | in a produced table only `NULL` rows show the question mark |
| Publisher.Endpoint | src/github_api.rs:400-404 | the Gemini endpoint iff the model is `gemini`; the OpenAI endpoint otherwise, including no choice |
| Publisher.FeedbackNameInjective | src/github_api.rs:491 | two students never share a feedback file |
| Publisher.FeedbackRecord | src/github_api.rs:486-493 | the saved record decodes to the answer's three fields |
| Publisher.TeacherBody | src/github_api.rs:568-572 | the body starts with the note heading, then holds the trimmed note, and ends with the AI feedback |
| Publisher.TeacherBodyTrimsNote | src/github_api.rs:570 | whitespace around the note never reaches the issue |
| Publisher.AiBody | src/github_api.rs:575-578 | the body is the AI heading, the feedback, and the disclaimer |
| Publisher.AiBodyInjective | src/github_api.rs:575-578 | the AI feedback can be read back from the body |
| Publisher.BodiesDiffer | src/github_api.rs:568-578 | a body with a note never equals one without |
| Publisher.AnswerAtFirst | src/github_api.rs:526-535 | the y/n line found is the first from `pos` on; if none is found, no line answers |
| Publisher.DoneAtFirst | src/github_api.rs:558-565 | the `DONE` line found is the first from `pos` on; if none is found, there is none |
| Publisher.DialogueAccepted | src/github_api.rs:526-565 | accepted iff the first y/n line says `y` and, if a note was chosen, a `DONE` line follows |
| Publisher.DialogueHangs | src/github_api.rs:526-565 | hangs iff input ends before a y/n answer, or before `DONE` in a chosen note |
| Publisher.DialogueNote | src/github_api.rs:550-565 | the note is exactly the lines after the second `y` and before the first `DONE` |
| Publisher.Verdict | src/github_api.rs:536-598 | posted iff accepted, stuck iff the dialogue hangs; a posted issue goes to `<student>-<task>`, titled with the status, with the body the decision calls for |
| Publisher.Respond | src/github_api.rs:480-604 | an error answer is reported without reading input; a success is the verdict of the dialogue from the current position |
| Publisher.Session.ReadLine | src/github_api.rs:526 | the next line, or `""` without advancing once input has ended |
| Publisher.Session.Confirm | src/github_api.rs:526-535 | returns whether the first answering line says `y`, and stops just after it; hangs at end of input |
| Publisher.Session.TeacherNote | src/github_api.rs:555-565 | the concatenated lines up to the first `DONE`, stopping after it; hangs at end of input |
| Publisher.Session.Decide | src/github_api.rs:526-579 | the decision and reading position are `Dialogue` from the old position |
| Publisher.Session.Handle | src/github_api.rs:480-604 | one answer: its feedback file is saved before any question; the outcome is `Respond`; exactly the accepted issue is filed |
| Publisher.Session.Publish | src/github_api.rs:468-606 | the outcomes are `Run` over the answers; every handled success is saved and every acceptance filed |
| Publisher.RunStaysStuck | src/github_api.rs:526-565 | once a prompt hangs, later answers are never handled |
| Publisher.RunShape | src/github_api.rs:468-606 | either every answer is handled without hanging, or the last handled one hangs |
| Publisher.SaveAllHolds | src/github_api.rs:491-493 | every handled success's feedback file holds its three fields unless a later answer for the same student replaced it |
| Graders.BuildPromptAppend | AI_api/gptAPI.py:46-50 | one more file adds its name after `, ` and its content after a blank line |
| Graders.BuildPromptSingle | AI_api/gptAPI.py:46-50 | a single file's name and content reach the prompt unchanged |
| Graders.VerdictRoundTrip | AI_api/gptAPI.py:78-84 | the verdict returned decodes back to itself |
| Graders.VerdictAsRead | src/github_api.rs:481-485 | the tool reads each field as sent, and `""` for a missing task |
| Graders.SplitVerdict | AI_api/gptAPI.py:70-76 | `None` iff the reply has no colon; the status is stripped and has no colon |
| Graders.SplitVerdictRoundTrip | AI_api/gptAPI.py:75-76 | `status:feedback` splits into the stripped status and the feedback as written |
| Graders.StripReply | AI_api/geminiAPI.py:66-71 | stripping the whole reply strips only the status's front and the feedback's back |
| Graders.StripSplitVerdict | AI_api/geminiAPI.py:66-77 | stripping then splitting gives the stripped status and a feedback that strips to the stripped feedback |
| Graders.GradeGpt | AI_api/gptAPI.py:41-90 | errors are 500 or 502; a verdict carries the request's student and task and a stripped status without a colon |
| Graders.GptFails | AI_api/gptAPI.py:58-73 | fails iff the template is unreadable, the call fails (502), or the reply has no colon (500, malformed) |
| Graders.GptRoundTrip | AI_api/gptAPI.py:65-84 | a reply `status:feedback` comes back as the stripped status and the feedback as written |
| Graders.GradeGemini | AI_api/geminiAPI.py:36-84 | like the OpenAI service, and the feedback is stripped too |
| Graders.GeminiFails | AI_api/geminiAPI.py:58-68 | stripping the reply keeps its colons, so it fails exactly in the OpenAI service's cases |
| Graders.GeminiRoundTrip | AI_api/geminiAPI.py:66-79 | `status:feedback` comes back as the stripped status and stripped feedback |
| Graders.GradeLegacy | AI_api/api.py:21-73 | any failure is the framework's plain 500; a verdict has the request's student and no task |
| Graders.LegacyMatchesGpt | AI_api/api.py:67-72 | as functions of the same request and model reply: where both answer, the legacy verdict is the OpenAI one without the task, and `Field` reads its missing task as `""` |

## Left out

- Processes are oracles. The model leaves out `git clone`, `git checkout`, `javac`, the JUnit runner, and the spawning, health check and kill of the grading server. `javac` and the runner are parameters (`javac`, `junit`). The clone's exit status is ignored, as in the code.
- HTTP is left out. Each reply of the grading service and of the tracker is a parameter: `replies` and `fetch`. A network error, and a reply body that is not JSON, are not modelled.
- Terminal printing, the colour codes and the command line parser are left out.
- Environment variables (`IMAGI_JARS_DIR`, `IMAGI_ROOT`, `GITHUB_TOKEN`, the API keys) are left out. The jars directory is a path parameter.
- A `?` that leaves `send_payload` early skips `server.kill()`. The server process is not modelled.
- `get_tests`, `print_test_results` and `print_feedback` are left out. They are outside the grading path.
- File I/O around the manifest is left out: `serde_json` writing `src_paths.json` in `clone_repos` and reading it back in `create_payload`. `CreatePayload` takes the manifest as a map.
- The JSON text rendering of `serde_json` is left out. Records are encoded to a JSON value tree, and the round trips are stated on that tree.
- `parse_issue_status` is modelled only as the construction of a row. Its JSON step cannot fail for two strings.
- The prompt template text and Python's `template.format` are left out. The prompt is the four substituted values, so the template's contents are part of the `ask` oracle.
- Text.ToUpper: upper-cases ASCII letters only. Rust's `to_uppercase` is Unicode-aware, and some non-ASCII characters upper-case to ASCII letters: `ß` to `SS`, `ſ` to `S`, `ı` to `I`, `ﬁ` to `FI`. `check_issues` therefore classifies the title `paß` as `PASS`, but the model gives it no status. `IssueStatus.Classify` and the lemmas about it hold for this ASCII upper-casing.
- Graders.GradeLegacy: the tool never calls the legacy service. It posts to other endpoints, and its `user_id` field does not match the `student_id` the legacy service requires. The legacy service is modelled as a function on its own request type.
- The copy of a directory onto itself is excluded by a precondition (`p != testsDir`, `p != jarsDir`), because `fs::copy` of a file onto itself is platform-dependent.
- Graders.GradeGpt: a completion with no choices is treated like empty content, because the source's guard treats both alike. The legacy endpoint's indexing error is modelled as its plain 500.
- Pipeline.Workspace.ReadDir: a directory has only regular files and the `student_tests` sub-directory. Other sub-directories are not modelled, because no step of the core descends into them.
- Pipeline.Workspace.ReadText: file contents are modelled as text that has already been decoded. `read_to_string` fails with `InvalidData` on a file that is not valid UTF-8, for example a Latin-1 `Main.java` or a `java.png` that `transform_contents` picks. One such file ends the whole batch. The model's reads fail only when the file is missing.
- Pipeline.Workspace.ReadSources: for the same reason, the promise that reading succeeds whenever every chosen file exists holds only for files that are valid UTF-8.
- Pipeline.Workspace.MoveCollected: errors from `fs::rename` (github_api.rs:226) other than the modelled ones are not represented. These include permission and cross-device errors. In the model, renaming a listed file always succeeds.
- Pipeline.Workspace.CopyListed: errors from `fs::copy` (github_api.rs:245, 259) other than a missing source directory are not represented. In the model, copying a listed file always succeeds.
- Publisher.Session.Handle: the feedback file is always written. In the program, a failed `fs::write` (github_api.rs:493) ends `send_payload` through `?`, and so does a failed `create_dir_all` of the output directory (github_api.rs:397). The model of `create_payload` does include write failures, through the `refuses` oracle.
- Paths.Join: a joined name is always one path component. Rust's `Path::join` splits the name on `/` and ignores empty and `.` components, and an absolute name replaces the whole path. Student names and ids that contain `/` or `.` components are therefore not represented.
- Pipeline.PayloadPathInjective: this holds only for keys that are one path component. For `x` and `./x`, the program writes one record file, and the later record overwrites the earlier.
- Roster.SourceDirInjective: this holds only for students whose names are one path component. For `a/b` and `a//b`, the program clones into one directory.
- Roster.ManifestTask: "no two entries share a directory" holds only for names that are one path component, for the same reason.
- Publisher.FeedbackNameInjective: this holds only for student ids from the grading service that are one path component.
- Pipeline.Workspace.RunJavaTests: `javac` writes `.class` files into the source directory (github_api.rs:266-270). The model leaves them out. They do not affect the test classes found, which need names ending in `.java`. `Staging.RestageFiles` is stated on staging alone, not on a compiled directory.
- Pipeline.Workspace: the written records (`written`) are kept apart from the source directories (`dirs`). An output directory that is also a source directory therefore cannot be represented, and neither can the interaction between writing and staging.
