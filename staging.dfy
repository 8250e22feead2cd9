/** What staging (`run_java_tests`, steps 1 to 3) does to a submission's
    source directory, stated on directory values. The in-place methods of
    `Pipeline.Workspace` are proved to produce exactly these values. */
module Staging {
  import opened Wrappers
  import opened Text
  import opened Paths
  import opened FileNames

  type Content = string
  type Files = map<Name, Content>

  /** The sub-directory that receives the student's own test files. */
  const HeldDir: Name := "student_tests"

  /** A source directory: its regular files and, when the sub-directory
      `student_tests` exists, the files in it. Other sub-directories are not
      modelled. */
  datatype SrcDir = SrcDir(files: Files, held: Option<Files>)

  /** One name is either a regular file or the held sub-directory. */
  predicate Valid(d: SrcDir) {
    d.held.Some? ==> HeldDir !in d.files
  }

  function Held(d: SrcDir): Files {
    match d.held
    case Some(h) => h
    case None => map[]
  }

  /** The files of `from` whose names `select` accepts. */
  function Selected(from: Files, select: Name -> bool): Files {
    map n | n in from && select(n) :: from[n]
  }

  /** The files step 1 leaves in place. */
  function Remaining(files: Files): Files {
    map n | n in files && !IsStudentTest(n) :: files[n]
  }

  /** A directory after a staging step, and the error that stopped it, if any. */
  datatype Step = Step(dir: SrcDir, error: Option<IoError>)

  /** Step 1: move every regular file whose name contains `Test.java` into
      `student_tests/`, creating it only when something moves. A regular file
      named `student_tests` makes the creation fail before anything moves. */
  function MoveAside(d: SrcDir): (r: Step)
    requires Valid(d)
    ensures Valid(r.dir)
    ensures r.error.Some? ==> r.dir == d && r.error == Some(AlreadyExists)
    ensures r.error.None? ==> forall n :: n in r.dir.files ==> !IsStudentTest(n)
    ensures r.error.None? ==> forall n :: n in d.files && IsStudentTest(n) ==>
              n in Held(r.dir) && Held(r.dir)[n] == d.files[n]
    ensures forall n :: n in d.files && !IsStudentTest(n) ==> n in r.dir.files && r.dir.files[n] == d.files[n]
    ensures forall n :: n in r.dir.files ==> n in d.files
    ensures r.dir.held.Some? <==> d.held.Some? || (r.error.None? && Selected(d.files, IsStudentTest) != map[])
  {
    var moved := Selected(d.files, IsStudentTest);
    if moved == map[] then
      assert forall n :: n in d.files ==> !IsStudentTest(n) by {
        forall n | n in d.files ensures !IsStudentTest(n) {
          assert n !in moved;
        }
      }
      Step(d, None)
    else if HeldDir in d.files then Step(d, Some(AlreadyExists))
    else Step(SrcDir(Remaining(d.files), Some(Held(d) + moved)), None)
  }

  /** Steps 2 and 3: copy every file of `from` that `select` accepts into the
      directory, replacing a file of the same name; an unreadable source
      directory (`from == None`) is an error and changes nothing. */
  function CopyIn(d: SrcDir, from: Option<Files>, select: Name -> bool): (r: Step)
    ensures from.None? ==> r == Step(d, Some(NotFound))
    ensures from.Some? ==> r.error.None? && r.dir.held == d.held
    ensures from.Some? ==> forall n :: n in r.dir.files <==> n in d.files || (n in from.value && select(n))
    ensures from.Some? ==> forall n :: n in from.value && select(n) ==> r.dir.files[n] == from.value[n]
    ensures from.Some? ==> forall n :: n in d.files && !(n in from.value && select(n)) ==>
              r.dir.files[n] == d.files[n]
  {
    match from
    case None => Step(d, Some(NotFound))
    case Some(src) => Step(d.(files := d.files + Selected(src, select)), None)
  }

  /** Steps 1 to 3 in order; the first error stops the rest and leaves the
      directory as the earlier steps made it. */
  function Stage(d: SrcDir, tests: Option<Files>, jars: Option<Files>): Step
    requires Valid(d)
  {
    var s1 := MoveAside(d);
    if s1.error.Some? then s1
    else
      var s2 := CopyIn(s1.dir, tests, IsCanonicalTest);
      if s2.error.Some? then s2
      else CopyIn(s2.dir, jars, IsJar)
  }

  /** Staging keeps the directory well-formed and never touches a file that
      is not the student's test or a copied canonical test or library. */
  lemma StageValid(d: SrcDir, tests: Option<Files>, jars: Option<Files>)
    requires Valid(d)
    ensures Valid(Stage(d, tests, jars).dir)
  {
    var s1 := MoveAside(d);
    if s1.error.None? && tests.Some? {
      assert HeldDir !in Selected(tests.value, IsCanonicalTest) by {
        EndsWithDistinctLasts(HeldDir);
      }
      if jars.Some? {
        assert HeldDir !in Selected(jars.value, IsJar) by {
          assert HeldDir[|HeldDir| - 1] == 's';
        }
      }
    }
  }

  /** `student_tests` is neither a canonical test name nor a library. */
  lemma EndsWithDistinctLasts(n: Name)
    requires n == HeldDir
    ensures !IsCanonicalTest(n) && !IsJar(n)
  {
    assert n[|n| - 1] == 's';
  }

  /** After staging succeeds, every file whose name ends in `Test.java` is
      the canonical one: the student's own were moved aside and only the
      test directory supplies such names. */
  lemma StagedTestFilesAreCanonical(d: SrcDir, tests: Files, jars: Files, n: Name)
    requires Valid(d)
    requires Stage(d, Some(tests), Some(jars)).error.None?
    requires n in Stage(d, Some(tests), Some(jars)).dir.files && EndsWith(n, "Test.java")
    ensures n in tests && Stage(d, Some(tests), Some(jars)).dir.files[n] == tests[n]
  {
    CanonicalJavaTestIsStudentTest(n);
    if IsJar(n) {
      JarIsNotTest(n);
    }
  }

  /** Staging never removes or rewrites a graded source file unless the test
      or library directory supplies a file of the same name; so every file
      `transform_contents` chose before staging is still there afterwards. */
  lemma GradedSourcesSurvive(d: SrcDir, tests: Option<Files>, jars: Option<Files>, n: Name)
    requires Valid(d)
    requires n in d.files && IsGradedSource(n)
    ensures n in Stage(d, tests, jars).dir.files
    ensures (tests.None? || n !in tests.value || !IsCanonicalTest(n)) &&
            (jars.None? || n !in jars.value || !IsJar(n)) ==>
              Stage(d, tests, jars).dir.files[n] == d.files[n]
  {
    if IsStudentTest(n) {
      StudentTestNotGraded(n);
    }
  }

  /** The regular files of a directory after staging, in one expression:
      the student's non-test files, overlaid by the canonical tests, overlaid
      by the libraries. */
  lemma StagedFiles(d: SrcDir, tests: Files, jars: Files)
    requires Valid(d)
    requires Stage(d, Some(tests), Some(jars)).error.None?
    ensures Stage(d, Some(tests), Some(jars)).dir.files ==
              Remaining(d.files) + Selected(tests, IsCanonicalTest) + Selected(jars, IsJar)
  {
    var moved := Selected(d.files, IsStudentTest);
    if moved == map[] {
      assert Remaining(d.files) == d.files by {
        forall n | n in d.files ensures !IsStudentTest(n) {
          assert n !in moved;
        }
      }
    }
  }

  /** Staging a second time leaves the same regular files as staging once. */
  lemma RestageFiles(d: SrcDir, tests: Files, jars: Files)
    requires Valid(d) && HeldDir !in d.files
    requires Stage(d, Some(tests), Some(jars)).error.None?
    ensures Valid(Stage(d, Some(tests), Some(jars)).dir)
    ensures var once := Stage(d, Some(tests), Some(jars)).dir;
            Stage(once, Some(tests), Some(jars)).error.None? &&
            Stage(once, Some(tests), Some(jars)).dir.files == once.files
  {
    StageValid(d, Some(tests), Some(jars));
    var once := Stage(d, Some(tests), Some(jars)).dir;
    var canon, libs := Selected(tests, IsCanonicalTest), Selected(jars, IsJar);
    StagedFiles(d, tests, jars);
    EndsWithDistinctLasts(HeldDir);
    assert HeldDir !in once.files;
    StagedFiles(once, tests, jars);
    OverlayRemaining(Remaining(d.files), canon, libs);
  }

  /** Moving the student tests out of an overlay whose base has none moves
      only overlaid files, which the same overlay puts back. */
  lemma OverlayRemaining(base: Files, canon: Files, libs: Files)
    requires forall n :: n in base ==> !IsStudentTest(n)
    ensures Remaining(base + canon + libs) + canon + libs == base + canon + libs
  {
    var all := base + canon + libs;
    var again := Remaining(all) + canon + libs;
    assert forall n :: n in again <==> n in all;
    forall n | n in all ensures again[n] == all[n] {
      if n !in canon && n !in libs {
        assert n in base && !IsStudentTest(n);
      }
    }
  }

  /** Staging a second time moves the canonical copy of a test file into
      `student_tests/`, replacing the student's own file of the same name
      that the first staging put there. */
  lemma RestageReplacesHeldTests(d: SrcDir, tests: Files, jars: Files, n: Name)
    requires Valid(d)
    requires n in d.files && EndsWith(n, "Test.java") && n in tests
    requires Stage(d, Some(tests), Some(jars)).error.None?
    ensures var once := Stage(d, Some(tests), Some(jars)).dir;
            n in Held(once) && Held(once)[n] == d.files[n] &&
            (Valid(once) && Stage(once, Some(tests), Some(jars)).error.None? ==>
               var twice := Stage(once, Some(tests), Some(jars)).dir;
               n in Held(twice) && Held(twice)[n] == tests[n])
  {
    CanonicalJavaTestIsStudentTest(n);
    if IsJar(n) {
      JarIsNotTest(n);
    }
    var once := Stage(d, Some(tests), Some(jars)).dir;
    assert n in once.files && once.files[n] == tests[n];
  }
}
