/** The file-system side of `src/github_api.rs`: a workspace of directories
    and files that `run_java_tests` changes in place and `create_payload`
    writes into. `javac` and the JUnit runner are oracles passed in as
    functions; directory listings come back in an order callers cannot
    rely on. */
module Pipeline {
  import opened Wrappers
  import opened Text
  import opened Paths
  import opened Collections
  import opened FileNames
  import opened Records
  import opened Staging

  /** What a `Box<dyn Error>` returned by the pipeline carries. */
  datatype Failure =
    | Io(kind: IoError)     // a failed file-system call, passed on by `?`
    | Message(text: string) // an error built from a string

  const CompilationFailed: string := "Java compilation failed"

  /** What the test runner printed. */
  datatype RunOutput = RunOutput(stdout: string, stderr: string)

  /** `listing` is one enumeration of `d` by `fs::read_dir`: every regular
      file once as a file, the held sub-directory once as a directory, and
      nothing else. */
  predicate Lists(d: SrcDir, listing: seq<Entry>) {
    && NamesDistinct(listing)
    && (forall e :: e in listing ==>
          (e.isFile && e.name in d.files) || (!e.isFile && e.name == HeldDir && d.held.Some?))
    && (forall n :: n in d.files ==> Entry(n, true) in listing)
    && (d.held.Some? ==> Entry(HeldDir, false) in listing)
  }

  /** The regular files of the directory at `q`, or `None` when there is none. */
  function Source(dirs: map<Path, SrcDir>, q: Path): Option<Files> {
    if q in dirs then Some(dirs[q].files) else None
  }

  /** Steps 1 to 3 of `run_java_tests` applied to the directory at `p` of a
      whole workspace, with the tests and libraries read from `t` and `j`. */
  function StageAt(dirs: map<Path, SrcDir>, p: Path, t: Path, j: Path): (map<Path, SrcDir>, Option<IoError>)
    requires p in dirs ==> Valid(dirs[p])
  {
    if p !in dirs then (dirs, Some(NotFound))
    else
      var s := Stage(dirs[p], Source(dirs, t), Source(dirs, j));
      (dirs[p := s.dir], s.error)
  }

  /** Step 1 of `run_java_tests` applied to the directory at `p` of a whole
      workspace; a missing directory cannot be listed. */
  function MoveAt(dirs: map<Path, SrcDir>, p: Path): (map<Path, SrcDir>, Option<IoError>)
    requires p in dirs ==> Valid(dirs[p])
  {
    if p !in dirs then (dirs, Some(NotFound))
    else
      var s := MoveAside(dirs[p]);
      (dirs[p := s.dir], s.error)
  }

  /** Steps 2 or 3 of `run_java_tests` applied to the directory at `p` of a
      whole workspace. */
  function CopyAt(dirs: map<Path, SrcDir>, p: Path, from: Path, select: Name -> bool): (map<Path, SrcDir>, Option<IoError>)
    requires p in dirs
  {
    var s := CopyIn(dirs[p], Source(dirs, from), select);
    (dirs[p := s.dir], s.error)
  }

  /** The files of `src` that the entries `es` list as regular files. */
  function Listed(src: Files, es: seq<Entry>): Files {
    map n | n in src && Entry(n, true) in es :: src[n]
  }

  /** What copying the files of the entries `es` that `select` accepts
      puts into the target, one entry at a time in listing order. */
  function CopiedFrom(src: Files, es: seq<Entry>, select: Name -> bool): Files
    decreases |es|
  {
    if es == [] then map[]
    else
      var prev, e := CopiedFrom(src, es[..|es| - 1], select), es[|es| - 1];
      if e.isFile && e.name in src && select(e.name) then prev[e.name := src[e.name]] else prev
  }

  /** Copying one file at a time brings in exactly the selected listed files. */
  lemma {:induction false} CopiedFromListed(src: Files, es: seq<Entry>, select: Name -> bool)
    ensures CopiedFrom(src, es, select) == Selected(Listed(src, es), select)
    decreases |es|
  {
    if es != [] {
      var init, e := es[..|es| - 1], es[|es| - 1];
      assert es == init + [e];
      CopiedFromListed(src, init, select);
    }
  }

  lemma OverlayUpdate(files: Files, copied: Files, n: Name, c: Content)
    ensures (files + copied)[n := c] == files + copied[n := c]
  {
  }

  /** A whole listing lists every regular file. */
  lemma ListedAll(d: SrcDir, listing: seq<Entry>)
    requires Lists(d, listing)
    ensures Listed(d.files, listing) == d.files
  {
  }

  /** `StageAt` is the three steps one after the other, each on the
      workspace the previous one left. */
  lemma StageAtSteps(dirs: map<Path, SrcDir>, p: Path, t: Path, j: Path)
    requires p in dirs ==> Valid(dirs[p])
    requires p != t && p != j
    ensures var (d1, e1) := MoveAt(dirs, p);
            && (e1.Some? ==> StageAt(dirs, p, t, j) == (d1, e1))
            && (e1.None? ==> p in d1)
            && (e1.None? ==>
                  var (d2, e2) := CopyAt(d1, p, t, IsCanonicalTest);
                  && (e2.Some? ==> StageAt(dirs, p, t, j) == (d2, e2))
                  && (e2.None? ==> p in d2 && StageAt(dirs, p, t, j) == CopyAt(d2, p, j, IsJar)))
  {
    if p in dirs {
      var s1 := MoveAside(dirs[p]);
      var d1 := dirs[p := s1.dir];
      assert Source(d1, t) == Source(dirs, t);
      assert Source(d1, j) == Source(dirs, j);
      if s1.error.None? {
        var s2 := CopyIn(s1.dir, Source(dirs, t), IsCanonicalTest);
        var d2 := d1[p := s2.dir];
        assert Source(d2, j) == Source(dirs, j);
        assert d2 == dirs[p := s2.dir];
        if s2.error.None? {
          var s3 := CopyIn(s2.dir, Source(dirs, j), IsJar);
          assert d2[p := s3.dir] == dirs[p := s3.dir];
        }
      }
    }
  }

  /** After staging succeeds the directory is still there. */
  lemma StagedExists(dirs: map<Path, SrcDir>, p: Path, t: Path, j: Path)
    requires p in dirs ==> Valid(dirs[p])
    requires StageAt(dirs, p, t, j).1.None?
    ensures p in dirs && p in StageAt(dirs, p, t, j).0
  {
  }

  /** The workspace after `run_java_tests` and its result, when the test
      classes are found by enumerating `listing`. */
  function TestRun(dirs: map<Path, SrcDir>, p: Path, t: Path, j: Path, listing: seq<Entry>,
                   javac: Files -> bool, junit: (Files, seq<string>) -> RunOutput): (map<Path, SrcDir>, Result<string, Failure>)
    requires p in dirs ==> Valid(dirs[p])
  {
    var (staged, err) := StageAt(dirs, p, t, j);
    if err.Some? then (staged, Err(Io(err.value)))
    else if p !in staged then (staged, Err(Io(NotFound)))
    else (staged, Harness(staged[p].files, TestClasses(listing), javac, junit))
  }

  /** Staging never removes a graded file, so every file `transform_contents`
      chose before staging is still a regular file of the staged directory. */
  lemma GradedNamesSurvive(dirs: map<Path, SrcDir>, p: Path, t: Path, j: Path, listing: seq<Entry>)
    requires p in dirs && Valid(dirs[p]) && Lists(dirs[p], listing)
    requires StageAt(dirs, p, t, j).1.None?
    ensures p in StageAt(dirs, p, t, j).0
    ensures forall n :: n in GradedNames(listing) ==> n in StageAt(dirs, p, t, j).0[p].files
  {
    forall n | n in GradedNames(listing) ensures n in StageAt(dirs, p, t, j).0[p].files {
      GradedSourcesSurvive(dirs[p], Source(dirs, t), Source(dirs, j), n);
    }
  }

  /** One manifest entry's turn of `create_payload`: the workspace it leaves
      and the record it builds, when `transform_contents` enumerates
      `listing` and `find_test_classes` enumerates `testListing`. */
  function Submission(dirs: map<Path, SrcDir>, key: string, task: string, readme: string, src: Path,
                      t: Path, j: Path, listing: seq<Entry>, testListing: seq<Entry>,
                      javac: Files -> bool, junit: (Files, seq<string>) -> RunOutput): (map<Path, SrcDir>, Result<Payload, Failure>)
    requires src in dirs ==> Valid(dirs[src]) && Lists(dirs[src], listing)
  {
    if src !in dirs then (dirs, Err(Io(NotFound)))
    else
      var (staged, run) := TestRun(dirs, src, t, j, testListing, javac, junit);
      if run.Err? then (staged, Err(run.error))
      else
        GradedNamesSurvive(dirs, src, t, j, listing);
        var names := GradedNames(listing);
        (staged, Ok(Payload(key, task, readme, SourcesOf(names, staged[src].files), run.value)))
  }

  /** The names of a list of source records, in order. */
  function Filenames(sources: seq<SourceFile>): (r: seq<string>)
    ensures |r| == |sources| && forall k :: 0 <= k < |r| ==> r[k] == sources[k].filename
  {
    seq(|sources|, k requires 0 <= k < |sources| => sources[k].filename)
  }

  /** `sources` names every graded file of `before` once and holds each
      one's text as it stands in `after`. */
  ghost predicate GradedFilesOf(sources: seq<SourceFile>, before: SrcDir, after: SrcDir) {
    && Distinct(Filenames(sources))
    && (forall n :: n in Filenames(sources) <==> n in before.files && IsGradedSource(n))
    && (forall k :: 0 <= k < |sources| ==>
          sources[k].filename in after.files && sources[k].content == after.files[sources[k].filename])
  }

  /** `pl` is the record of `key`, built from the graded files of `before`
      read from `after`. */
  ghost predicate Built(pl: Payload, key: string, task: string, readme: string, before: SrcDir, after: SrcDir) {
    && pl.userId == key
    && pl.task == task
    && pl.readMe == readme
    && GradedFilesOf(pl.sourceFiles, before, after)
  }

  /** The record built in a successful turn carries the entry's key, the
      shared task and description, and the graded files of the directory as
      it was before staging, read after staging. */
  lemma SubmissionPayload(dirs: map<Path, SrcDir>, key: string, task: string, readme: string, src: Path,
                          t: Path, j: Path, listing: seq<Entry>, testListing: seq<Entry>,
                          javac: Files -> bool, junit: (Files, seq<string>) -> RunOutput)
    requires src in dirs ==> Valid(dirs[src]) && Lists(dirs[src], listing)
    requires Submission(dirs, key, task, readme, src, t, j, listing, testListing, javac, junit).1.Ok?
    ensures var (staged, r) := Submission(dirs, key, task, readme, src, t, j, listing, testListing, javac, junit);
            && src in dirs && src in staged
            && r.value.userId == key && r.value.task == task && r.value.readMe == readme
            && GradedFilesOf(r.value.sourceFiles, dirs[src], staged[src])
  {
    var (staged, r) := Submission(dirs, key, task, readme, src, t, j, listing, testListing, javac, junit);
    GradedNamesSurvive(dirs, src, t, j, listing);
    var names := GradedNames(listing);
    assert r.value.sourceFiles == SourcesOf(names, staged[src].files);
    assert Filenames(r.value.sourceFiles) == names;
  }

  /** One more key adds its record path. */
  lemma PayloadPathsAppend(outDir: Path, keys: seq<string>, i: nat)
    requires i < |keys|
    ensures PayloadPaths(outDir, keys[..i + 1]) == PayloadPaths(outDir, keys[..i]) + {PayloadPath(outDir, keys[i])}
  {
    assert keys[..i + 1][..i] == keys[..i];
  }

  /** Steps 4 to 6 of `run_java_tests` on the staged files: compile, and
      only when that succeeds run the given test classes. */
  function Harness(files: Files, classes: seq<string>,
                   javac: Files -> bool, junit: (Files, seq<string>) -> RunOutput): (r: Result<string, Failure>)
    ensures r.Err? <==> !javac(files)
    ensures r.Err? ==> r.error == Message(CompilationFailed)
    ensures r.Ok? ==>
              var out := junit(files, classes);
              |r.value| == |out.stdout| + 1 + |out.stderr| && StartsWith(r.value, out.stdout) &&
              r.value[|out.stdout|] == '\n' && EndsWith(r.value, out.stderr)
  {
    if !javac(files) then Err(Message(CompilationFailed))
    else
      var out := junit(files, classes);
      var r := out.stdout + "\n" + out.stderr;
      assert r[..|out.stdout|] == out.stdout;
      assert r[|r| - |out.stderr|..] == out.stderr;
      Ok(r)
  }

  /** The files not named in `ns`. */
  function Without(files: Files, ns: seq<Name>): Files {
    map n | n in files && n !in ns :: files[n]
  }

  /** The files named in `ns`. */
  function Only(files: Files, ns: seq<Name>): Files {
    map n | n in files && n in ns :: files[n]
  }

  /** The loop of step 1 of `run_java_tests` that collects, in listing
      order, the regular files to move aside. */
  method CollectStudentTests(entries: seq<Entry>) returns (toMove: seq<Name>)
    ensures NamesDistinct(entries) ==> Distinct(toMove)
    ensures forall n :: n in toMove <==> Entry(n, true) in entries && IsStudentTest(n)
  {
    toMove := [];
    var i := 0;
    while i < |entries|
      invariant 0 <= i <= |entries|
      invariant NamesDistinct(entries) ==> Distinct(toMove)
      invariant forall n :: n in toMove <==> Entry(n, true) in entries[..i] && IsStudentTest(n)
    {
      var e := entries[i];
      assert entries[..i + 1] == entries[..i] + [e];
      if e.isFile && IsStudentTest(e.name) {
        if NamesDistinct(entries) {
          forall k | 0 <= k < i ensures entries[k] != Entry(e.name, true) {
            assert entries[k].name != entries[i].name;
          }
          assert Entry(e.name, true) !in entries[..i];
        }
        toMove := toMove + [e.name];
      }
      i := i + 1;
    }
    assert entries[..i] == entries;
  }

  /** What step 1 collects from a listing of `d` is exactly what `MoveAside` moves. */
  lemma CollectedAreSelected(d: SrcDir, listing: seq<Entry>, toMove: seq<Name>)
    requires Lists(d, listing)
    requires forall n :: n in toMove <==> Entry(n, true) in listing && IsStudentTest(n)
    ensures forall n :: n in toMove <==> n in d.files && IsStudentTest(n)
    ensures Without(d.files, toMove) == Remaining(d.files)
    ensures Only(d.files, toMove) == Selected(d.files, IsStudentTest)
    ensures toMove == [] <==> Selected(d.files, IsStudentTest) == map[]
  {
    forall n | n in toMove ensures n in d.files {
      assert Entry(n, true) in listing;
    }
    if toMove != [] {
      assert toMove[0] in Selected(d.files, IsStudentTest);
    }
  }

  /** `d` after the files named in `ns` have been renamed into its held directory. */
  function Renamed(d: SrcDir, ns: seq<Name>): SrcDir {
    SrcDir(Without(d.files, ns), Some(Held(d) + Only(d.files, ns)))
  }

  /** Renaming one more file out of `files` into the held directory. */
  lemma RenameStep(files: Files, held: Files, ns: seq<Name>, n: Name)
    ensures Without(files, ns + [n]) == Without(files, ns) - {n}
    ensures n in files ==> held + Only(files, ns + [n]) == (held + Only(files, ns))[n := files[n]]
  {
  }

  /** Renaming nothing leaves a directory that has a held sub-directory as it is. */
  lemma RenamedNone(d: SrcDir)
    requires d.held.Some?
    ensures Renamed(d, []) == d
  {
    assert Without(d.files, []) == d.files;
    assert Held(d) + Only(d.files, []) == Held(d);
  }

  /** The renaming loop's next step moves the next name, which is still in place. */
  lemma RenameAdvance(d: SrcDir, names: seq<Name>, j: nat)
    requires j < |names| && Distinct(names) && forall n :: n in names ==> n in d.files
    ensures var cur, n := Renamed(d, names[..j]), names[j];
            && n in cur.files
            && Renamed(d, names[..j + 1]) == SrcDir(cur.files - {n}, Some(Held(cur)[n := cur.files[n]]))
  {
    var n := names[j];
    assert names[..j + 1] == names[..j] + [n];
    assert n !in names[..j] by {
      forall k | 0 <= k < j ensures names[k] != n {
        assert names[k] == names[..j][k];
      }
    }
    RenameStep(d.files, Held(d), names[..j], n);
  }

  /** The records of the named files with their contents in `files`, in order. */
  function SourcesOf(names: seq<Name>, files: Files): (r: seq<SourceFile>)
    requires forall n :: n in names ==> n in files
    ensures |r| == |names|
    ensures forall k :: 0 <= k < |r| ==> r[k].filename == names[k] && r[k].content == files[names[k]]
    decreases |names|
  {
    if names == [] then []
    else
      var init := names[..|names| - 1];
      assert forall n :: n in init ==> n in names;
      SourcesOf(init, files) + [SourceFile(names[|names| - 1], files[names[|names| - 1]])]
  }

  /** Where `create_payload` writes the record of `key`. */
  function PayloadPath(outDir: Path, key: string): Path {
    Join(outDir, key + ".json")
  }

  /** The record files of the given keys. */
  function PayloadPaths(outDir: Path, keys: seq<string>): set<Path>
    decreases |keys|
  {
    if keys == [] then {}
    else PayloadPaths(outDir, keys[..|keys| - 1]) + {PayloadPath(outDir, keys[|keys| - 1])}
  }

  /** A key's record file is among those of a list of keys exactly when the key is. */
  lemma {:induction false} PayloadPathsMember(outDir: Path, keys: seq<string>, k: string)
    ensures PayloadPath(outDir, k) in PayloadPaths(outDir, keys) <==> k in keys
    decreases |keys|
  {
    if keys != [] {
      var init, last := keys[..|keys| - 1], keys[|keys| - 1];
      assert keys == init + [last];
      PayloadPathsMember(outDir, init, k);
      PayloadPathInjective(outDir, k, last);
    }
  }

  /** Two students never share a record file. */
  lemma PayloadPathInjective(outDir: Path, k1: string, k2: string)
    ensures PayloadPath(outDir, k1) == PayloadPath(outDir, k2) <==> k1 == k2
  {
    if PayloadPath(outDir, k1) == PayloadPath(outDir, k2) {
      var a, b := k1 + ".json", k2 + ".json";
      assert a == PayloadPath(outDir, k1)[|outDir|];
      assert a == b;
      assert k1 == a[..|k1|] && k2 == b[..|k2|];
    }
  }

  /** Where `create_payload` looks for the task description: next to `src`. */
  function ReadmePath(src: Path): Path {
    Join(Pop(src), "README.md")
  }

  /** The task name `create_payload` derives from a source directory: the
      name of the directory two levels up, or `""` when there is none. */
  function TaskName(src: Path): string {
    match FileName(Pop(Pop(ReadmePath(src))))
    case Some(t) => t
    case None => ""
  }

  /** For a source directory laid out as `clone_repos` lays it out,
      `<out>/<task>/<student>-<task>/src`, the derived task name is the task. */
  lemma TaskNameOfClonedSource(out: Path, task: string, repo: string)
    ensures TaskName(out + [task, repo, "src"]) == task
    ensures ReadmePath(out + [task, repo, "src"]) == out + [task, repo, "README.md"]
  {
    var src := out + [task, repo, "src"];
    var dir := out + [task, repo];
    assert src[..|src| - 1] == dir;
    var readme := dir + ["README.md"];
    assert ReadmePath(src) == readme;
    assert readme[..|readme| - 1] == dir;
    assert dir[..|dir| - 1] == out + [task];
  }

  /** What every turn of the loop of `create_payload` shares: the manifest,
      the task and description read before the loop, where the records go,
      the test and library directories, the two oracles, and `refuses`, the
      error the file system reports for a write at a path, if any. */
  datatype Batch = Batch(manifest: map<string, Path>, task: string, readme: string, outDir: Path,
                         testsDir: Path, jarsDir: Path,
                         javac: Files -> bool, junit: (Files, seq<string>) -> RunOutput,
                         refuses: Path -> Option<IoError>)

  /** What one turn of the loop saw and built: the enumeration
      `transform_contents` made, the one `find_test_classes` made, and the
      record or the error. */
  datatype Turn = Turn(listing: seq<Entry>, testListing: seq<Entry>, graded: Result<Payload, Failure>)

  /** How a turn ends once its record is written: the error of building it,
      else the error of writing it, else the record. */
  function Stored(b: Batch, key: string, t: Turn): Result<Payload, Failure> {
    if t.graded.Err? then t.graded
    else if b.refuses(PayloadPath(b.outDir, key)).Some? then Err(Io(b.refuses(PayloadPath(b.outDir, key)).value))
    else t.graded
  }

  /** The turn `t` of manifest key `key` took the workspace from `w` to `w2`;
      when it built a record, its test classes were found by enumerating the
      staged directory. */
  ghost predicate Took(b: Batch, key: string, w: map<Path, SrcDir>, w2: map<Path, SrcDir>, t: Turn) {
    && key in b.manifest
    && (forall p :: p in w ==> Valid(w[p]))
    && (b.manifest[key] in w ==> Lists(w[b.manifest[key]], t.listing))
    && (w2, t.graded) == Submission(w, key, b.task, b.readme, b.manifest[key], b.testsDir, b.jarsDir,
                                    t.listing, t.testListing, b.javac, b.junit)
    && (t.graded.Ok? ==> b.manifest[key] in w2 && Lists(w2[b.manifest[key]], t.testListing))
  }

  /** `turns` are the turns of the first `|turns|` keys, each starting from
      the workspace the one before left. */
  ghost predicate Attempted(b: Batch, keys: seq<string>, ws: seq<map<Path, SrcDir>>, turns: seq<Turn>) {
    && |ws| == |turns| + 1 && |turns| <= |keys|
    && forall m :: 0 <= m < |turns| ==> Took(b, keys[m], ws[m], ws[m + 1], turns[m])
  }

  /** The first `n` turns stored their records, and `w` is `w0` with exactly
      those records added. */
  ghost predicate Wrote(b: Batch, keys: seq<string>, turns: seq<Turn>, n: nat, w0: map<Path, Json>, w: map<Path, Json>)
    requires n <= |keys| && n <= |turns|
  {
    && w.Keys == w0.Keys + PayloadPaths(b.outDir, keys[..n])
    && (forall q :: q in w0 && q !in PayloadPaths(b.outDir, keys[..n]) ==> w[q] == w0[q])
    && (forall m :: 0 <= m < n ==>
          && Stored(b, keys[m], turns[m]).Ok?
          && PayloadPath(b.outDir, keys[m]) in w
          && DecodePayload(w[PayloadPath(b.outDir, keys[m])]) == Some(turns[m].graded.value))
  }

  /** What the loop of `create_payload` leaves: the turns it took from
      `dirs0` to `dirs`, every stored record written, and `r` the error of
      the one turn that was not stored, which ends the run, or success once
      every key's record is stored. */
  ghost predicate Ran(b: Batch, keys: seq<string>, dirs0: map<Path, SrcDir>, dirs: map<Path, SrcDir>,
                      w0: map<Path, Json>, w: map<Path, Json>, r: Result<(), Failure>,
                      ws: seq<map<Path, SrcDir>>, turns: seq<Turn>)
  {
    && Attempted(b, keys, ws, turns)
    && ws[0] == dirs0 && dirs == ws[|turns|]
    && (r.Ok? ==> |turns| == |keys| && Wrote(b, keys, turns, |turns|, w0, w))
    && (r.Err? ==>
          && |turns| > 0
          && Wrote(b, keys, turns, |turns| - 1, w0, w)
          && Stored(b, keys[|turns| - 1], turns[|turns| - 1]).Err?
          && r.error == Stored(b, keys[|turns| - 1], turns[|turns| - 1]).error)
  }

  /** One more turn, from where the last one left off. */
  lemma AttemptedStep(b: Batch, keys: seq<string>, ws: seq<map<Path, SrcDir>>, turns: seq<Turn>,
                      w2: map<Path, SrcDir>, t: Turn)
    requires Attempted(b, keys, ws, turns) && |turns| < |keys|
    requires Took(b, keys[|turns|], ws[|turns|], w2, t)
    ensures Attempted(b, keys, ws + [w2], turns + [t])
  {
    var ws', turns' := ws + [w2], turns + [t];
    forall m | 0 <= m < |turns'| ensures Took(b, keys[m], ws'[m], ws'[m + 1], turns'[m]) {
      if m < |turns| {
        assert ws'[m] == ws[m] && ws'[m + 1] == ws[m + 1] && turns'[m] == turns[m];
      }
    }
  }

  /** A turn that is not stored leaves what the earlier turns wrote. */
  lemma WroteKeep(b: Batch, keys: seq<string>, turns: seq<Turn>, t: Turn, n: nat, w0: map<Path, Json>, w: map<Path, Json>)
    requires n <= |keys| && n <= |turns|
    requires Wrote(b, keys, turns, n, w0, w)
    ensures Wrote(b, keys, turns + [t], n, w0, w)
  {
    forall m | 0 <= m < n ensures (turns + [t])[m] == turns[m] {
    }
  }

  /** Writing the record of key `i` adds its path and leaves every other
      record, in particular those of the first `i` keys, as it was. */
  lemma RecordPathsStep(w0: map<Path, Json>, w: map<Path, Json>, w': map<Path, Json>, outDir: Path,
                        keys: seq<string>, i: nat)
    requires i < |keys| && Distinct(keys)
    requires w.Keys == w0.Keys + PayloadPaths(outDir, keys[..i])
    requires forall q :: q in w0 && q !in PayloadPaths(outDir, keys[..i]) ==> w[q] == w0[q]
    requires w'.Keys == w.Keys + {PayloadPath(outDir, keys[i])}
    requires forall q :: q in w && q != PayloadPath(outDir, keys[i]) ==> w'[q] == w[q]
    ensures w'.Keys == w0.Keys + PayloadPaths(outDir, keys[..i + 1])
    ensures forall q :: q in w0 && q !in PayloadPaths(outDir, keys[..i + 1]) ==> w'[q] == w0[q]
    ensures forall m :: 0 <= m < i ==> PayloadPath(outDir, keys[m]) in w && w'[PayloadPath(outDir, keys[m])] == w[PayloadPath(outDir, keys[m])]
  {
    PayloadPathsAppend(outDir, keys, i);
    EarlierRecordsKept(w, w', outDir, keys, i);
  }

  /** The records of the first `i` keys are not the one written for key `i`. */
  lemma EarlierRecordsKept(w: map<Path, Json>, w': map<Path, Json>, outDir: Path, keys: seq<string>, i: nat)
    requires i < |keys| && Distinct(keys)
    requires PayloadPaths(outDir, keys[..i]) <= w.Keys && w.Keys <= w'.Keys
    requires forall q :: q in w && q != PayloadPath(outDir, keys[i]) ==> w'[q] == w[q]
    ensures forall m :: 0 <= m < i ==> PayloadPath(outDir, keys[m]) in w && w'[PayloadPath(outDir, keys[m])] == w[PayloadPath(outDir, keys[m])]
  {
    forall m | 0 <= m < i
      ensures PayloadPath(outDir, keys[m]) in w && w'[PayloadPath(outDir, keys[m])] == w[PayloadPath(outDir, keys[m])]
    {
      PayloadPathInjective(outDir, keys[m], keys[i]);
      assert keys[m] in keys[..i];
      PayloadPathsMember(outDir, keys[..i], keys[m]);
    }
  }

  /** Storing the record of key `i` extends what the first `i` records establish. */
  lemma WroteStep(b: Batch, keys: seq<string>, turns: seq<Turn>, t: Turn,
                  w0: map<Path, Json>, w: map<Path, Json>, w2: map<Path, Json>)
    requires |turns| < |keys| && Distinct(keys)
    requires Wrote(b, keys, turns, |turns|, w0, w)
    requires Stored(b, keys[|turns|], t).Ok?
    requires w2.Keys == w.Keys + {PayloadPath(b.outDir, keys[|turns|])}
    requires forall q :: q in w && q != PayloadPath(b.outDir, keys[|turns|]) ==> w2[q] == w[q]
    requires DecodePayload(w2[PayloadPath(b.outDir, keys[|turns|])]) == Some(t.graded.value)
    ensures Wrote(b, keys, turns + [t], |turns| + 1, w0, w2)
  {
    var i, turns' := |turns|, turns + [t];
    RecordPathsStep(w0, w, w2, b.outDir, keys, i);
    forall m | 0 <= m < i + 1
      ensures && Stored(b, keys[m], turns'[m]).Ok?
              && PayloadPath(b.outDir, keys[m]) in w2
              && DecodePayload(w2[PayloadPath(b.outDir, keys[m])]) == Some(turns'[m].graded.value)
    {
      if m < i {
        assert turns'[m] == turns[m];
      }
    }
  }

  /** The state of the loop of `create_payload` after `|turns|` turns, all stored. */
  ghost predicate Looped(b: Batch, keys: seq<string>, dirs0: map<Path, SrcDir>, dirs: map<Path, SrcDir>,
                         w0: map<Path, Json>, w: map<Path, Json>, ws: seq<map<Path, SrcDir>>, turns: seq<Turn>)
  {
    && Attempted(b, keys, ws, turns)
    && ws[0] == dirs0 && dirs == ws[|turns|]
    && Wrote(b, keys, turns, |turns|, w0, w)
  }

  /** A stored turn keeps the loop going. */
  lemma LoopedNext(b: Batch, keys: seq<string>, dirs0: map<Path, SrcDir>, dirs: map<Path, SrcDir>, dirs2: map<Path, SrcDir>,
                   w0: map<Path, Json>, w: map<Path, Json>, w2: map<Path, Json>,
                   ws: seq<map<Path, SrcDir>>, turns: seq<Turn>, t: Turn)
    requires Looped(b, keys, dirs0, dirs, w0, w, ws, turns) && |turns| < |keys| && Distinct(keys)
    requires Took(b, keys[|turns|], dirs, dirs2, t)
    requires Stored(b, keys[|turns|], t).Ok?
    requires w2.Keys == w.Keys + {PayloadPath(b.outDir, keys[|turns|])}
    requires forall q :: q in w && q != PayloadPath(b.outDir, keys[|turns|]) ==> w2[q] == w[q]
    requires DecodePayload(w2[PayloadPath(b.outDir, keys[|turns|])]) == Some(t.graded.value)
    ensures Looped(b, keys, dirs0, dirs2, w0, w2, ws + [dirs2], turns + [t])
  {
    AttemptedStep(b, keys, ws, turns, dirs2, t);
    WroteStep(b, keys, turns, t, w0, w, w2);
  }

  /** A turn that is not stored ends the loop with its error. */
  lemma LoopedStops(b: Batch, keys: seq<string>, dirs0: map<Path, SrcDir>, dirs: map<Path, SrcDir>, dirs2: map<Path, SrcDir>,
                    w0: map<Path, Json>, w: map<Path, Json>, ws: seq<map<Path, SrcDir>>, turns: seq<Turn>, t: Turn)
    requires Looped(b, keys, dirs0, dirs, w0, w, ws, turns) && |turns| < |keys|
    requires Took(b, keys[|turns|], dirs, dirs2, t)
    requires Stored(b, keys[|turns|], t).Err?
    ensures Ran(b, keys, dirs0, dirs2, w0, w, Err(Stored(b, keys[|turns|], t).error), ws + [dirs2], turns + [t])
  {
    AttemptedStep(b, keys, ws, turns, dirs2, t);
    WroteKeep(b, keys, turns, t, |turns|, w0, w);
  }

  /** Every key stored: the loop succeeds. */
  lemma LoopedDone(b: Batch, keys: seq<string>, dirs0: map<Path, SrcDir>, dirs: map<Path, SrcDir>,
                   w0: map<Path, Json>, w: map<Path, Json>, ws: seq<map<Path, SrcDir>>, turns: seq<Turn>)
    requires Looped(b, keys, dirs0, dirs, w0, w, ws, turns) && |turns| == |keys|
    ensures Ran(b, keys, dirs0, dirs, w0, w, Ok(()), ws, turns)
  {
  }

  /** Every record the loop of `create_payload` stored holds its key, the
      shared task and description, and each graded file of its directory as
      the directory was before the turn, with the text it has after staging;
      its test results are what compiling the staged directory and running
      exactly its test classes printed. */
  lemma RanBuilt(b: Batch, keys: seq<string>, dirs0: map<Path, SrcDir>, dirs: map<Path, SrcDir>,
                 w0: map<Path, Json>, w: map<Path, Json>, r: Result<(), Failure>,
                 ws: seq<map<Path, SrcDir>>, turns: seq<Turn>, m: nat)
    requires Ran(b, keys, dirs0, dirs, w0, w, r, ws, turns)
    requires m < |turns| && (r.Err? ==> m < |turns| - 1)
    ensures keys[m] in b.manifest && turns[m].graded.Ok?
    ensures var src, p := b.manifest[keys[m]], turns[m].graded.value;
            && src in ws[m] && src in ws[m + 1]
            && PayloadPath(b.outDir, keys[m]) in w
            && DecodePayload(w[PayloadPath(b.outDir, keys[m])]) == Some(p)
            && Built(p, keys[m], b.task, b.readme, ws[m][src], ws[m + 1][src])
            && Lists(ws[m + 1][src], turns[m].testListing)
            && (forall c :: c in TestClasses(turns[m].testListing) <==>
                  c + ".java" in ws[m + 1][src].files && IsTestClassFile(c + ".java"))
            && Harness(ws[m + 1][src].files, TestClasses(turns[m].testListing), b.javac, b.junit) == Ok(p.testResults)
  {
    var n := if r.Ok? then |turns| else |turns| - 1;
    assert Wrote(b, keys, turns, n, w0, w);
    assert Stored(b, keys[m], turns[m]).Ok?;
    assert Took(b, keys[m], ws[m], ws[m + 1], turns[m]);
    var src, t := b.manifest[keys[m]], turns[m];
    SubmissionPayload(ws[m], keys[m], b.task, b.readme, src, b.testsDir, b.jarsDir, t.listing, t.testListing, b.javac, b.junit);
  }


  class Workspace {
    /** The directories the pipeline reads and stages. */
    var dirs: map<Path, SrcDir>
    /** Other text files, such as each repository's `README.md`. */
    var texts: map<Path, string>
    /** The JSON records written so far. */
    var written: map<Path, Json>

    predicate WellFormed()
      reads this
    {
      forall p :: p in dirs ==> Valid(dirs[p])
    }

    constructor (dirs0: map<Path, SrcDir>, texts0: map<Path, string>)
      requires forall p :: p in dirs0 ==> Valid(dirs0[p])
      ensures WellFormed()
      ensures dirs == dirs0 && texts == texts0 && written == map[]
    {
      dirs, texts, written := dirs0, texts0, map[];
    }

    /** `fs::read_to_string`: a regular file of a known directory, or another
        text file; anything else is not found. */
    function ReadText(p: Path): Result<string, IoError>
      reads this
    {
      if p != [] && Pop(p) in dirs && p[|p| - 1] in dirs[Pop(p)].files then Ok(dirs[Pop(p)].files[p[|p| - 1]])
      else if p in texts then Ok(texts[p])
      else Err(NotFound)
    }

    /** `fs::read_dir`: the entries of a directory, each once, in an
        unspecified order. */
    method ReadDir(p: Path) returns (r: Result<seq<Entry>, IoError>)
      requires WellFormed()
      ensures p !in dirs ==> r == Err(NotFound)
      ensures p in dirs ==> r.Ok? && Lists(dirs[p], r.value)
    {
      if p !in dirs {
        return Err(NotFound);
      }
      var d := dirs[p];
      var names := Enumerate(d.files.Keys);
      var entries := seq(|names|, i requires 0 <= i < |names| => Entry(names[i], true));
      assert forall n :: n in d.files ==> Entry(n, true) in entries by {
        forall n | n in d.files ensures Entry(n, true) in entries {
          var i :| 0 <= i < |names| && names[i] == n;
          assert entries[i] == Entry(n, true);
        }
      }
      if d.held.Some? {
        entries := entries + [Entry(HeldDir, false)];
      }
      return Ok(entries);
    }

    /** `transform_contents`: the regular files whose names contain `java`
        and not `Test`, as names and as paths aligned index by index. */
    method TransformContents(p: Path) returns (r: Result<(seq<Path>, seq<Name>), IoError>, ghost listing: seq<Entry>)
      requires WellFormed()
      ensures p !in dirs ==> r == Err(NotFound)
      ensures p in dirs ==> r.Ok? && Lists(dirs[p], listing) && r.value.1 == GradedNames(listing)
      ensures p in dirs ==> |r.value.0| == |r.value.1|
      ensures p in dirs ==> forall k :: 0 <= k < |r.value.1| ==> r.value.0[k] == Join(p, r.value.1[k])
      ensures p in dirs ==> Distinct(r.value.1)
      ensures p in dirs ==> forall n :: n in r.value.1 <==> n in dirs[p].files && IsGradedSource(n)
    {
      var entries := ReadDir(p);
      match entries
      case Err(e) =>
        r, listing := Err(e), [];
      case Ok(es) =>
        var paths, names := SelectSources(p, es);
        r, listing := Ok((paths, names)), es;
    }

    /** `find_test_classes`: the class name of every regular file ending in
        `Test.java` or `Tests.java`. */
    method FindTestClasses(p: Path) returns (r: Result<seq<string>, IoError>, ghost listing: seq<Entry>)
      requires WellFormed()
      ensures p !in dirs ==> r == Err(NotFound)
      ensures p in dirs ==> r.Ok? && Lists(dirs[p], listing) && r.value == TestClasses(listing)
      ensures p in dirs ==> Distinct(r.value)
      ensures p in dirs ==> forall c :: c in r.value <==> c + ".java" in dirs[p].files && IsTestClassFile(c + ".java")
    {
      var entries := ReadDir(p);
      match entries
      case Err(e) =>
        r, listing := Err(e), [];
      case Ok(es) =>
        var classes := SelectTestClasses(es);
        r, listing := Ok(classes), es;
    }

    /** Step 1 of `run_java_tests`: collect the regular files whose names
        contain `Test.java`, then, if there are any, create `student_tests/`
        and rename them into it one at a time. */
    method MoveStudentTests(p: Path) returns (err: Option<IoError>)
      requires WellFormed()
      modifies this
      ensures WellFormed() && texts == old(texts) && written == old(written)
      ensures (dirs, err) == MoveAt(old(dirs), p)
    {
      var listing := ReadDir(p);
      if listing.Err? {
        return Some(NotFound);
      }
      var toMove := CollectStudentTests(listing.value);
      CollectedAreSelected(dirs[p], listing.value, toMove);
      err := MoveCollected(p, toMove);
    }

    /** The rest of step 1 once the files to move are known. */
    method MoveCollected(p: Path, toMove: seq<Name>) returns (err: Option<IoError>)
      requires WellFormed() && p in dirs && Distinct(toMove)
      requires forall n :: n in toMove <==> n in dirs[p].files && IsStudentTest(n)
      requires Without(dirs[p].files, toMove) == Remaining(dirs[p].files)
      requires Only(dirs[p].files, toMove) == Selected(dirs[p].files, IsStudentTest)
      requires toMove == [] <==> Selected(dirs[p].files, IsStudentTest) == map[]
      modifies this
      ensures WellFormed() && texts == old(texts) && written == old(written)
      ensures (dirs, err) == MoveAt(old(dirs), p)
    {
      ghost var d := dirs[p];
      if toMove == [] {
        assert MoveAside(d) == Step(d, None);
        assert old(dirs)[p := d] == old(dirs);
        return None;
      }
      if HeldDir in dirs[p].files {
        assert MoveAside(d) == Step(d, Some(AlreadyExists));
        assert old(dirs)[p := d] == old(dirs);
        return Some(AlreadyExists);
      }
      ghost var moved := SrcDir(Remaining(d.files), Some(Held(d) + Selected(d.files, IsStudentTest)));
      assert MoveAside(d) == Step(moved, None);
      // create_dir_all: the directory exists from here on
      dirs := dirs[p := dirs[p].(held := Some(Held(dirs[p])))];
      RenameInto(p, toMove);
      assert dirs == old(dirs)[p := moved];
      err := None;
    }

    /** The renaming loop of step 1: each named file leaves the directory at
        `p` for its held sub-directory, replacing a held file of the same name. */
    method RenameInto(p: Path, names: seq<Name>)
      requires p in dirs && dirs[p].held.Some?
      requires Distinct(names) && forall n :: n in names ==> n in dirs[p].files
      modifies this
      ensures texts == old(texts) && written == old(written)
      ensures var d := old(dirs)[p];
              dirs == old(dirs)[p := SrcDir(Without(d.files, names), Some(Held(d) + Only(d.files, names)))]
    {
      ghost var d := dirs[p];
      RenamedNone(d);
      assert names[..0] == [];
      assert old(dirs)[p := d] == old(dirs);
      var j := 0;
      while j < |names|
        invariant 0 <= j <= |names|
        invariant texts == old(texts) && written == old(written)
        invariant dirs == old(dirs)[p := Renamed(d, names[..j])]
      {
        var n := names[j];
        RenameAdvance(d, names, j);
        ghost var next := Renamed(d, names[..j + 1]);
        assert dirs[p] == Renamed(d, names[..j]);
        dirs := dirs[p := SrcDir(dirs[p].files - {n}, Some(Held(dirs[p])[n := dirs[p].files[n]]))];
        assert dirs[p] == next;
        j := j + 1;
      }
      assert names[..j] == names;
    }

    /** Steps 2 and 3 of `run_java_tests`: copy every regular file of the
        directory at `from` that `select` accepts into the directory at `p`,
        one at a time, replacing a file of the same name. */
    method CopyInto(p: Path, from: Path, select: Name -> bool) returns (err: Option<IoError>)
      requires WellFormed() && p in dirs && p != from && !select(HeldDir)
      modifies this
      ensures WellFormed() && texts == old(texts) && written == old(written)
      ensures (dirs, err) == CopyAt(old(dirs), p, from, select)
    {
      ghost var d := dirs[p];
      var listing := ReadDir(from);
      if listing.Err? {
        assert old(dirs)[p := d] == old(dirs);
        return Some(NotFound);
      }
      CopyListed(p, from, listing.value, select);
      CopiedFromListed(old(dirs)[from].files, listing.value, select);
      ListedAll(old(dirs)[from], listing.value);
      err := None;
    }

    /** The copying loop of steps 2 and 3 over one listing of `from`. */
    method CopyListed(p: Path, from: Path, entries: seq<Entry>, select: Name -> bool)
      requires p in dirs && from in dirs && p != from
      requires forall e :: e in entries && e.isFile ==> e.name in dirs[from].files
      modifies this
      ensures texts == old(texts) && written == old(written)
      ensures var d := old(dirs)[p];
              dirs == old(dirs)[p := d.(files := d.files + CopiedFrom(old(dirs)[from].files, entries, select))]
    {
      ghost var d := dirs[p];
      ghost var src := dirs[from].files;
      assert d.files + map[] == d.files;
      assert old(dirs)[p := d] == old(dirs);
      var i := 0;
      while i < |entries|
        invariant 0 <= i <= |entries|
        invariant texts == old(texts) && written == old(written)
        invariant dirs == old(dirs)[p := d.(files := d.files + CopiedFrom(src, entries[..i], select))]
      {
        var e := entries[i];
        assert entries[..i + 1][..i] == entries[..i];
        if e.isFile && select(e.name) {
          assert e in entries;
          var content := dirs[from].files[e.name];
          OverlayUpdate(d.files, CopiedFrom(src, entries[..i], select), e.name, content);
          // fs::copy
          dirs := dirs[p := dirs[p].(files := dirs[p].files[e.name := content])];
        }
        i := i + 1;
      }
      assert entries[..i] == entries;
    }

    /** Steps 1 to 3 of `run_java_tests`, in place; the first failing step
        ends staging. */
    method StageInPlace(p: Path, testsDir: Path, jarsDir: Path) returns (err: Option<IoError>)
      requires WellFormed() && p != testsDir && p != jarsDir
      modifies this
      ensures WellFormed() && texts == old(texts) && written == old(written)
      ensures (dirs, err) == StageAt(old(dirs), p, testsDir, jarsDir)
    {
      StageAtSteps(dirs, p, testsDir, jarsDir);
      EndsWithDistinctLasts(HeldDir);
      // 1. move the student's own tests aside
      err := MoveStudentTests(p);
      if err.Some? {
        return;
      }
      // 2. copy the canonical tests in
      err := CopyInto(p, testsDir, IsCanonicalTest);
      if err.Some? {
        return;
      }
      // 3. copy the libraries in
      err := CopyInto(p, jarsDir, IsJar);
    }

    /** `run_java_tests`: stage the directory at `p` in place, then compile
        it and, when that succeeds, run the test classes found in it. */
    method RunJavaTests(p: Path, testsDir: Path, jarsDir: Path,
                        javac: Files -> bool, junit: (Files, seq<string>) -> RunOutput)
      returns (r: Result<string, Failure>, ghost listing: seq<Entry>)
      requires WellFormed() && p != testsDir && p != jarsDir
      modifies this
      ensures WellFormed() && texts == old(texts) && written == old(written)
      ensures (dirs, r) == TestRun(old(dirs), p, testsDir, jarsDir, listing, javac, junit)
      ensures r.Ok? ==> p in dirs && Lists(dirs[p], listing)
    {
      listing := [];
      var err := StageInPlace(p, testsDir, jarsDir);
      if err.Some? {
        return Err(Io(err.value)), [];
      }
      StagedExists(old(dirs), p, testsDir, jarsDir);
      assert dirs == StageAt(old(dirs), p, testsDir, jarsDir).0;
      // 4. compile
      if !javac(dirs[p].files) {
        return Err(Message(CompilationFailed)), [];
      }
      // 5. find the test classes and run them
      var classes;
      classes, listing := FindTestClasses(p);
      match classes
      case Err(e) =>
        r := Err(Io(e));
      case Ok(cs) =>
        var out := junit(dirs[p].files, cs);
        // 6. stdout, a newline, stderr
        r := Ok(out.stdout + "\n" + out.stderr);
    }

    /** One turn of the loop of `create_payload`: choose the graded files,
        run the tests (staging the directory), then read the chosen files
        from the staged directory. Each `?` ends the turn with its error. */
    method GradeOne(key: string, task: string, readme: string, src: Path, testsDir: Path, jarsDir: Path,
                    javac: Files -> bool, junit: (Files, seq<string>) -> RunOutput)
      returns (r: Result<Payload, Failure>, ghost listing: seq<Entry>, ghost testListing: seq<Entry>)
      requires WellFormed() && src != testsDir && src != jarsDir
      modifies this
      ensures WellFormed() && texts == old(texts) && written == old(written)
      ensures src in old(dirs) ==> Lists(old(dirs)[src], listing)
      ensures r.Ok? ==> src in dirs && Lists(dirs[src], testListing)
      ensures (dirs, r) == Submission(old(dirs), key, task, readme, src, testsDir, jarsDir, listing, testListing, javac, junit)
    {
      testListing := [];
      var chosen;
      chosen, listing := TransformContents(src);
      if chosen.Err? {
        return Err(Io(chosen.error)), listing, [];
      }
      var paths, names := chosen.value.0, chosen.value.1;
      var results;
      results, testListing := RunJavaTests(src, testsDir, jarsDir, javac, junit);
      if results.Err? {
        return Err(results.error), listing, testListing;
      }
      GradedNamesSurvive(old(dirs), src, testsDir, jarsDir, listing);
      var sources := ReadSources(src, paths, names);
      match sources
      case Err(e) =>
        r := Err(Io(e));
      case Ok(files) =>
        r := Ok(Payload(key, task, readme, files, results.value));
    }

    /** The inner loop of `create_payload`: `parse_source_file` on each chosen
        file, in order; the first failed read ends it. */
    method ReadSources(src: Path, paths: seq<Path>, names: seq<Name>) returns (r: Result<seq<SourceFile>, IoError>)
      requires |paths| == |names|
      requires forall k :: 0 <= k < |names| ==> paths[k] == Join(src, names[k])
      ensures src in dirs && (forall n :: n in names ==> n in dirs[src].files) ==>
                r == Ok(SourcesOf(names, dirs[src].files))
      ensures r.Ok? ==> |r.value| == |names|
      ensures r.Ok? ==> forall k :: 0 <= k < |names| ==>
                r.value[k].filename == names[k] && ReadText(paths[k]) == Ok(r.value[k].content)
    {
      var sources: seq<SourceFile> := [];
      var k := 0;
      while k < |names|
        invariant 0 <= k <= |names|
        invariant |sources| == k
        invariant forall i :: 0 <= i < k ==> sources[i].filename == names[i] && ReadText(paths[i]) == Ok(sources[i].content)
      {
        assert Pop(paths[k]) == src && paths[k][|paths[k]| - 1] == names[k];
        assert names[k] in names;
        var file := ParseSourceFile(names[k], ReadText(paths[k]));
        match file
        case Err(e) =>
          return Err(e);
        case Ok(f) =>
          sources := sources + [f];
        k := k + 1;
      }
      r := Ok(sources);
      if src in dirs && forall n :: n in names ==> n in dirs[src].files {
        forall i | 0 <= i < |names| ensures sources[i] == SourcesOf(names, dirs[src].files)[i] {
          assert names[i] in names;
          assert Pop(paths[i]) == src && paths[i][|paths[i]| - 1] == names[i];
        }
        assert sources == SourcesOf(names, dirs[src].files);
      }
    }

    /** `fs::write` of one JSON record, replacing any earlier one at `path`,
        unless the file system refuses it. */
    method WriteRecord(path: Path, json: Json, refuses: Path -> Option<IoError>) returns (err: Option<IoError>)
      modifies this
      ensures dirs == old(dirs) && texts == old(texts)
      ensures err == refuses(path)
      ensures err.Some? ==> written == old(written)
      ensures err.None? ==> written == old(written)[path := json]
    {
      err := refuses(path);
      if err.None? {
        written := written[path := json];
      }
    }

    /** The body of the loop of `create_payload` for one manifest entry:
        build its record and, when that succeeds, write it to `<key>.json`. */
    method GradeAndWrite(b: Batch, key: string) returns (r: Result<Payload, Failure>, ghost t: Turn)
      requires WellFormed() && key in b.manifest
      requires b.manifest[key] != b.testsDir && b.manifest[key] != b.jarsDir
      modifies this
      ensures WellFormed() && texts == old(texts)
      ensures Took(b, key, old(dirs), dirs, t)
      ensures r == Stored(b, key, t)
      ensures r.Err? ==> written == old(written)
      ensures r.Ok? ==> written.Keys == old(written).Keys + {PayloadPath(b.outDir, key)}
      ensures r.Ok? ==> forall q :: q in old(written) && q != PayloadPath(b.outDir, key) ==> written[q] == old(written)[q]
      ensures r.Ok? ==> DecodePayload(written[PayloadPath(b.outDir, key)]) == Some(r.value)
    {
      var graded, listing, testListing := GradeOne(key, b.task, b.readme, b.manifest[key], b.testsDir, b.jarsDir, b.javac, b.junit);
      t := Turn(listing, testListing, graded);
      if graded.Err? {
        return graded, t;
      }
      var json := CreatePayloadJson(key, b.task, b.readme, graded.value.sourceFiles, graded.value.testResults);
      var err := WriteRecord(PayloadPath(b.outDir, key), json.value, b.refuses);
      if err.Some? {
        return Err(Io(err.value)), t;
      }
      r := graded;
    }

    /** `create_payload`: read the task description next to the first
        source directory the manifest yields, create the output directory,
        then for every manifest entry in turn build its record and write it
        to `<key>.json` under `outDir`. The first error ends the whole run. */
    method CreatePayload(manifest: map<string, Path>, outDir: Path, testsDir: Path, jarsDir: Path,
                         javac: Files -> bool, junit: (Files, seq<string>) -> RunOutput,
                         refuses: Path -> Option<IoError>)
      returns (r: Result<(), Failure>, ghost order: seq<string>, task: string, readme: string,
               ghost ws: seq<map<Path, SrcDir>>, ghost turns: seq<Turn>)
      requires WellFormed()
      requires forall k :: k in manifest ==> manifest[k] != testsDir && manifest[k] != jarsDir
      modifies this
      ensures WellFormed() && texts == old(texts)
      ensures Distinct(order) && forall k :: k in order <==> k in manifest
      ensures order == [] ==> task == "" && readme == ""
      ensures order != [] ==>
                var d := old(ReadText(ReadmePath(manifest[order[0]])));
                && (d.Err? ==> r == Err(Io(d.error)) && dirs == old(dirs) && written == old(written))
                && (d.Ok? ==> readme == d.value && task == TaskName(manifest[order[0]]))
      ensures (order == [] || old(ReadText(ReadmePath(manifest[order[0]]))).Ok?) && refuses(outDir).Some? ==>
                r == Err(Io(refuses(outDir).value)) && dirs == old(dirs) && written == old(written)
      ensures (order == [] || old(ReadText(ReadmePath(manifest[order[0]]))).Ok?) && refuses(outDir).None? ==>
                Ran(Batch(manifest, task, readme, outDir, testsDir, jarsDir, javac, junit, refuses),
                    order, old(dirs), dirs, old(written), written, r, ws, turns)
    {
      var keys := Enumerate(manifest.Keys);
      order, task, readme, ws, turns := keys, "", "", [dirs], [];
      if |keys| > 0 {
        var readmePath := Pop(manifest[keys[0]]);
        readmePath := Join(readmePath, "README.md");
        var text := ReadText(readmePath);
        if text.Err? {
          return Err(Io(text.error)), order, task, readme, ws, turns;
        }
        readme := text.value;
        readmePath := Pop(readmePath);
        readmePath := Pop(readmePath);
        task := match FileName(readmePath) case Some(t) => t case None => "";
      }
      // create_dir_all
      var made := refuses(outDir);
      if made.Some? {
        return Err(Io(made.value)), order, task, readme, ws, turns;
      }
      r, ws, turns := WriteRecords(Batch(manifest, task, readme, outDir, testsDir, jarsDir, javac, junit, refuses), keys);
    }

    /** The loop of `create_payload` over the manifest entries in the order
        `keys` gives them. */
    method WriteRecords(b: Batch, keys: seq<string>)
      returns (r: Result<(), Failure>, ghost ws: seq<map<Path, SrcDir>>, ghost turns: seq<Turn>)
      requires WellFormed() && Distinct(keys)
      requires forall k :: k in keys ==> k in b.manifest && b.manifest[k] != b.testsDir && b.manifest[k] != b.jarsDir
      modifies this
      ensures WellFormed() && texts == old(texts)
      ensures Ran(b, keys, old(dirs), dirs, old(written), written, r, ws, turns)
    {
      ws, turns := [dirs], [];
      var i := 0;
      while i < |keys|
        invariant 0 <= i <= |keys| && |turns| == i
        invariant WellFormed() && texts == old(texts)
        invariant Looped(b, keys, old(dirs), dirs, old(written), written, ws, turns)
      {
        var key := keys[i];
        assert key in keys;
        ghost var (w, d) := (written, dirs);
        var stored, t := GradeAndWrite(b, key);
        if stored.Err? {
          LoopedStops(b, keys, old(dirs), d, dirs, old(written), written, ws, turns, t);
          return Err(stored.error), ws + [dirs], turns + [t];
        }
        LoopedNext(b, keys, old(dirs), d, dirs, old(written), w, written, ws, turns, t);
        ws, turns := ws + [dirs], turns + [t];
        i := i + 1;
      }
      LoopedDone(b, keys, old(dirs), dirs, old(written), written, ws, turns);
      r := Ok(());
    }
  }
}
