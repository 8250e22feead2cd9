/** The file-name tests of `src/github_api.rs` and the two selections over a
    directory listing: the graded sources (`transform_contents`) and the
    runnable test classes (`find_test_classes`). */
module FileNames {
  import opened Text
  import opened Paths
  import opened Collections

  type Name = string

  /** Staging step 1 moves a student's file aside when its name contains `Test.java`. */
  predicate IsStudentTest(n: Name) {
    Contains(n, "Test.java")
  }

  /** Staging step 2 copies a file from the test directory when its name ends in one of these. */
  predicate IsCanonicalTest(n: Name) {
    || EndsWith(n, "Test.java")
    || EndsWith(n, "Tests.java")
    || EndsWith(n, "test.go")
    || EndsWith(n, "Test.go")
    || EndsWith(n, "Test.class")
    || EndsWith(n, "Tests.class")
    || EndsWith(n, "test.class")
  }

  /** Staging step 3 copies the library archives. */
  predicate IsJar(n: Name) {
    EndsWith(n, ".jar")
  }

  /** `transform_contents` grades a file when `Test` does not occur in its
      name and `java` does (anywhere, not only as the extension). */
  predicate IsGradedSource(n: Name) {
    !Contains(n, "Test") && Contains(n, "java")
  }

  /** `find_test_classes` runs a file whose name ends in `Test.java` or `Tests.java`. */
  predicate IsTestClassFile(n: Name) {
    EndsWith(n, "Test.java") || EndsWith(n, "Tests.java")
  }

  /** The class name handed to the test runner: every trailing `.java` removed. */
  function ClassName(n: Name): Name {
    TrimEndMatches(n, ".java")
  }

  /** A test file's class name is its name without the one `.java` extension,
      and it still ends in `Test` or `Tests`. */
  lemma ClassNameOfTestFile(n: Name)
    requires IsTestClassFile(n)
    ensures ClassName(n) + ".java" == n
    ensures EndsWith(ClassName(n), "Test") || EndsWith(ClassName(n), "Tests")
  {
    var c := n[..|n| - 5];
    if EndsWith(n, "Test.java") {
      assert "Test.java" == "Test" + ".java";
      EndsWithSplit(n, "Test", ".java");
      EndsWithDistinctLast(c, "Test", ".java");
    } else {
      assert "Tests.java" == "Tests" + ".java";
      EndsWithSplit(n, "Tests", ".java");
      EndsWithDistinctLast(c, "Tests", ".java");
    }
    assert n == c + ".java";
    assert TrimEndMatches(c, ".java") == c;
  }

  /** Different test files have different class names. */
  lemma ClassNameInjective(a: Name, b: Name)
    requires IsTestClassFile(a) && IsTestClassFile(b) && a != b
    ensures ClassName(a) != ClassName(b)
  {
    ClassNameOfTestFile(a);
    ClassNameOfTestFile(b);
  }

  /** A file moved aside in step 1 is never graded: its name contains `Test`. */
  lemma StudentTestNotGraded(n: Name)
    requires IsStudentTest(n)
    ensures !IsGradedSource(n)
  {
    ContainsPrefix(n, "Test.java", 4);
    assert "Test.java"[..4] == "Test";
  }

  /** A canonical `...Test.java` file is one that step 1 would move. */
  lemma CanonicalJavaTestIsStudentTest(n: Name)
    requires EndsWith(n, "Test.java")
    ensures IsStudentTest(n) && IsTestClassFile(n)
  {
    EndsWithContains(n, "Test.java");
  }

  /** No library archive is a canonical test file or a runnable test class. */
  lemma JarIsNotTest(n: Name)
    requires IsJar(n)
    ensures !IsCanonicalTest(n) && !IsTestClassFile(n)
  {
    EndsWithDistinctLast(n, ".jar", "Test.java");
    EndsWithDistinctLast(n, ".jar", "Tests.java");
    EndsWithDistinctLast(n, ".jar", "test.go");
    EndsWithDistinctLast(n, ".jar", "Test.go");
    EndsWithDistinctLast(n, ".jar", "Test.class");
    EndsWithDistinctLast(n, ".jar", "Tests.class");
    EndsWithDistinctLast(n, ".jar", "test.class");
  }

  /** A student's `FooTests.java` stays in place in step 1 and is still run as a test class. */
  lemma TestsFileStaysAndRuns()
    ensures !IsStudentTest("FooTests.java") && IsTestClassFile("FooTests.java")
  {
    var n := "FooTests.java";
    forall i | 0 <= i <= |n| - 9 ensures !OccursAt(n, "Test.java", i) {
      assert n[i] != 'T' || n[i + 4] != '.';
    }
  }

  // ---------------------------------------------------------------- Listings

  /** One entry of `fs::read_dir`: a name and whether it is a regular file. */
  datatype Entry = Entry(name: Name, isFile: bool)

  predicate NamesDistinct(listing: seq<Entry>) {
    forall i, j :: 0 <= i < j < |listing| ==> listing[i].name != listing[j].name
  }

  /** A graded file among the first `n` entries of a listing. */
  predicate GradedAt(listing: seq<Entry>, k: int) {
    0 <= k < |listing| && listing[k].isFile && IsGradedSource(listing[k].name)
  }

  /** The names `transform_contents` selects from the first `n` entries. */
  function GradedUpTo(listing: seq<Entry>, n: nat): seq<Name>
    requires n <= |listing|
    decreases n
  {
    if n == 0 then []
    else GradedUpTo(listing, n - 1) + (if GradedAt(listing, n - 1) then [listing[n - 1].name] else [])
  }

  /** The selection from the first `n` entries holds exactly their graded
      names, once each when the listing's names are distinct. */
  lemma {:induction false} GradedUpToSpec(listing: seq<Entry>, n: nat)
    requires n <= |listing|
    ensures forall x :: x in GradedUpTo(listing, n) <==> exists k :: 0 <= k < n && GradedAt(listing, k) && listing[k].name == x
    ensures NamesDistinct(listing) ==> Distinct(GradedUpTo(listing, n))
    decreases n
  {
    if n > 0 {
      GradedUpToSpec(listing, n - 1);
      var init := GradedUpTo(listing, n - 1);
      var r := GradedUpTo(listing, n);
      forall x | x in r ensures exists k :: 0 <= k < n && GradedAt(listing, k) && listing[k].name == x {
        if x in init {
          var k :| 0 <= k < n - 1 && GradedAt(listing, k) && listing[k].name == x;
        } else {
          assert GradedAt(listing, n - 1) && listing[n - 1].name == x;
        }
      }
      forall x | exists k :: 0 <= k < n && GradedAt(listing, k) && listing[k].name == x ensures x in r {
        var k :| 0 <= k < n && GradedAt(listing, k) && listing[k].name == x;
        if k < n - 1 {
          assert x in init;
        }
      }
      if NamesDistinct(listing) && GradedAt(listing, n - 1) {
        assert listing[n - 1].name !in init;
      }
    }
  }

  /** The names `transform_contents` selects, in enumeration order. */
  function GradedNames(listing: seq<Entry>): (r: seq<Name>)
    ensures forall n :: n in r <==> Entry(n, true) in listing && IsGradedSource(n)
    ensures NamesDistinct(listing) ==> Distinct(r)
  {
    GradedUpToSpec(listing, |listing|);
    GradedUpTo(listing, |listing|)
  }

  /** A runnable test class among the entries of a listing. */
  predicate TestClassAt(listing: seq<Entry>, k: int) {
    0 <= k < |listing| && listing[k].isFile && IsTestClassFile(listing[k].name)
  }

  /** The class names `find_test_classes` returns for the first `n` entries. */
  function TestClassesUpTo(listing: seq<Entry>, n: nat): seq<string>
    requires n <= |listing|
    decreases n
  {
    if n == 0 then []
    else TestClassesUpTo(listing, n - 1) + (if TestClassAt(listing, n - 1) then [ClassName(listing[n - 1].name)] else [])
  }

  /** The classes from the first `n` entries are exactly the class names of
      their test files, once each when the listing's names are distinct. */
  lemma {:induction false} TestClassesUpToSpec(listing: seq<Entry>, n: nat)
    requires n <= |listing|
    ensures forall c :: c in TestClassesUpTo(listing, n) <==> exists k :: 0 <= k < n && TestClassAt(listing, k) && ClassName(listing[k].name) == c
    ensures NamesDistinct(listing) ==> Distinct(TestClassesUpTo(listing, n))
    decreases n
  {
    if n > 0 {
      TestClassesUpToSpec(listing, n - 1);
      var init := TestClassesUpTo(listing, n - 1);
      var r := TestClassesUpTo(listing, n);
      forall c | c in r ensures exists k :: 0 <= k < n && TestClassAt(listing, k) && ClassName(listing[k].name) == c {
        if c in init {
          var k :| 0 <= k < n - 1 && TestClassAt(listing, k) && ClassName(listing[k].name) == c;
        } else {
          assert TestClassAt(listing, n - 1) && ClassName(listing[n - 1].name) == c;
        }
      }
      forall c | exists k :: 0 <= k < n && TestClassAt(listing, k) && ClassName(listing[k].name) == c ensures c in r {
        var k :| 0 <= k < n && TestClassAt(listing, k) && ClassName(listing[k].name) == c;
        if k < n - 1 {
          assert c in init;
        }
      }
      if NamesDistinct(listing) && TestClassAt(listing, n - 1) {
        var c := ClassName(listing[n - 1].name);
        forall k | 0 <= k < n - 1 && TestClassAt(listing, k) ensures ClassName(listing[k].name) != c {
          ClassNameInjective(listing[k].name, listing[n - 1].name);
        }
        assert c !in init;
      }
    }
  }

  /** The class names `find_test_classes` returns, in enumeration order. */
  function TestClasses(listing: seq<Entry>): (r: seq<string>)
    ensures forall c :: c in r <==> Entry(c + ".java", true) in listing && IsTestClassFile(c + ".java")
    ensures forall c :: c in r ==> EndsWith(c, "Test") || EndsWith(c, "Tests")
    ensures NamesDistinct(listing) ==> Distinct(r)
  {
    TestClassesUpToSpec(listing, |listing|);
    TestClassesMembers(listing);
    TestClassesUpTo(listing, |listing|)
  }

  /** A class is returned exactly when its `.java` file is a listed test file. */
  lemma TestClassesMembers(listing: seq<Entry>)
    requires forall c :: c in TestClassesUpTo(listing, |listing|) <==> exists k :: 0 <= k < |listing| && TestClassAt(listing, k) && ClassName(listing[k].name) == c
    ensures forall c :: c in TestClassesUpTo(listing, |listing|) <==> Entry(c + ".java", true) in listing && IsTestClassFile(c + ".java")
    ensures forall c :: c in TestClassesUpTo(listing, |listing|) ==> EndsWith(c, "Test") || EndsWith(c, "Tests")
  {
    var r := TestClassesUpTo(listing, |listing|);
    forall c | c in r ensures Entry(c + ".java", true) in listing && IsTestClassFile(c + ".java") && (EndsWith(c, "Test") || EndsWith(c, "Tests")) {
      var k :| 0 <= k < |listing| && TestClassAt(listing, k) && ClassName(listing[k].name) == c;
      ClassNameOfTestFile(listing[k].name);
      assert listing[k] == Entry(c + ".java", true);
    }
    forall c | Entry(c + ".java", true) in listing && IsTestClassFile(c + ".java") ensures c in r {
      var k :| 0 <= k < |listing| && listing[k] == Entry(c + ".java", true);
      ClassNameOfTestFile(c + ".java");
      assert ClassName(c + ".java") == c by {
        assert (ClassName(c + ".java") + ".java")[..|c|] == (c + ".java")[..|c|];
      }
    }
  }

  /** The loop of `transform_contents` over one listing of `dir`: the names of
      the graded files and their paths, aligned index by index. */
  method SelectSources(dir: Path, listing: seq<Entry>) returns (paths: seq<Path>, names: seq<Name>)
    ensures names == GradedNames(listing)
    ensures |paths| == |names|
    ensures forall k :: 0 <= k < |names| ==> paths[k] == Join(dir, names[k])
  {
    paths, names := [], [];
    var i := 0;
    while i < |listing|
      invariant 0 <= i <= |listing|
      invariant names == GradedUpTo(listing, i)
      invariant |paths| == |names|
      invariant forall k :: 0 <= k < |names| ==> paths[k] == Join(dir, names[k])
    {
      var e := listing[i];
      if e.isFile && IsGradedSource(e.name) {
        names := names + [e.name];
        paths := paths + [Join(dir, e.name)];
      }
      i := i + 1;
    }
  }

  /** The loop of `find_test_classes` over one listing. */
  method SelectTestClasses(listing: seq<Entry>) returns (classes: seq<string>)
    ensures classes == TestClasses(listing)
  {
    classes := [];
    var i := 0;
    while i < |listing|
      invariant 0 <= i <= |listing|
      invariant classes == TestClassesUpTo(listing, i)
    {
      var e := listing[i];
      if e.isFile && (EndsWith(e.name, "Test.java") || EndsWith(e.name, "Tests.java")) {
        classes := classes + [TrimEndMatches(e.name, ".java")];
      }
      i := i + 1;
    }
  }
}
