/** The student list that `clone_repos` and `check_issues` read, and the
    names `clone_repos` derives from each student: the repository name, the
    clone URL and the source directory recorded in the manifest. */
module Roster {
  import opened Wrappers
  import opened Text
  import opened Paths
  import Pipeline

  /** A line names a student when, trimmed, it is neither empty nor a `#` comment. */
  predicate Names(line: string) {
    var s := RustTrim(line);
    s != [] && s[0] != '#'
  }

  /** The students named by the first `n` lines, trimmed, in line order. */
  function StudentsUpTo(lines: seq<string>, n: nat): (r: seq<string>)
    requires n <= |lines|
    ensures |r| <= n
    decreases n
  {
    if n == 0 then []
    else StudentsUpTo(lines, n - 1) + (if Names(lines[n - 1]) then [RustTrim(lines[n - 1])] else [])
  }

  /** The students a list names, trimmed, in the order of its lines. */
  function Students(lines: seq<string>): (r: seq<string>)
    ensures |r| <= |lines|
  {
    StudentsUpTo(lines, |lines|)
  }

  /** Every naming line among the first `n` contributes its trimmed text. */
  lemma {:induction false} UpToComplete(lines: seq<string>, n: nat, i: nat)
    requires i < n <= |lines| && Names(lines[i])
    ensures RustTrim(lines[i]) in StudentsUpTo(lines, n)
    decreases n
  {
    if i < n - 1 {
      UpToComplete(lines, n - 1, i);
    }
  }

  /** Every naming line contributes its trimmed text. */
  lemma StudentsComplete(lines: seq<string>, i: nat)
    requires i < |lines| && Names(lines[i])
    ensures RustTrim(lines[i]) in Students(lines)
  {
    UpToComplete(lines, |lines|, i);
  }

  /** Every student among the first `n` lines comes from a naming line. */
  lemma {:induction false} UpToSound(lines: seq<string>, n: nat, s: string)
    requires n <= |lines| && s in StudentsUpTo(lines, n)
    ensures exists i :: 0 <= i < n && Names(lines[i]) && RustTrim(lines[i]) == s
    decreases n
  {
    if s in StudentsUpTo(lines, n - 1) {
      UpToSound(lines, n - 1, s);
    } else {
      assert Names(lines[n - 1]) && RustTrim(lines[n - 1]) == s;
    }
  }

  /** Every student comes from a naming line. */
  lemma StudentsSound(lines: seq<string>, s: string)
    requires s in Students(lines)
    ensures exists i :: 0 <= i < |lines| && Names(lines[i]) && RustTrim(lines[i]) == s
  {
    UpToSound(lines, |lines|, s);
  }

  /** Every student is a trimmed name that is not a comment. */
  lemma StudentsTrimmed(lines: seq<string>, s: string)
    requires s in Students(lines)
    ensures s != [] && s[0] != '#' && RustTrim(s) == s
  {
    StudentsSound(lines, s);
    var i :| 0 <= i < |lines| && Names(lines[i]) && RustTrim(lines[i]) == s;
    TrimIdempotent(lines[i], IsRustWhitespace);
  }

  /** A list whose every line is already a trimmed name reads back unchanged. */
  lemma {:induction false} UpToOfNames(names: seq<string>, n: nat)
    requires n <= |names|
    requires forall j :: 0 <= j < |names| ==> Names(names[j]) && RustTrim(names[j]) == names[j]
    ensures StudentsUpTo(names, n) == names[..n]
    decreases n
  {
    if n > 0 {
      UpToOfNames(names, n - 1);
      assert names[..n] == names[..n - 1] + [names[n - 1]];
    }
  }

  /** Reading the list back from its own output gives the same students. */
  lemma StudentsIdempotent(lines: seq<string>)
    ensures Students(Students(lines)) == Students(lines)
  {
    var once := Students(lines);
    forall j | 0 <= j < |once|
      ensures Names(once[j]) && RustTrim(once[j]) == once[j]
    {
      StudentsTrimmed(lines, once[j]);
    }
    UpToOfNames(once, |once|);
  }

  /** The loop of `clone_repos` and `check_issues` over the lines of the list. */
  method ParseStudents(lines: seq<string>) returns (students: seq<string>)
    ensures students == Students(lines)
  {
    students := [];
    var i := 0;
    while i < |lines|
      invariant 0 <= i <= |lines|
      invariant students == StudentsUpTo(lines, i)
    {
      var student := RustTrim(lines[i]);
      if student == [] || student[0] == '#' {
        i := i + 1;
        continue;
      }
      students := students + [student];
      i := i + 1;
    }
  }

  // ---------------------------------------------------------------- Names derived from a student

  /** The organisation's clone prefix. */
  const BaseUrl: string := "git@gits-15.sys.kth.se:inda-25/"

  /** A student's repository for a task: `<student>-<task>`. */
  function RepoName(student: string, task: string): string {
    student + "-" + task
  }

  /** For one task, different students never share a repository. */
  lemma RepoNameInjective(a: string, b: string, task: string)
    ensures RepoName(a, task) == RepoName(b, task) <==> a == b
  {
    if RepoName(a, task) == RepoName(b, task) {
      assert |a| == |b|;
      assert a == RepoName(a, task)[..|a|];
    }
  }

  /** The URL `git clone` receives: the prefix, the repository, `.git`. */
  function CloneUrl(student: string, task: string): string {
    BaseUrl + RepoName(student, task) + ".git"
  }

  /** The repository can be read back from its clone URL. */
  lemma CloneUrlShape(student: string, task: string)
    ensures var r := CloneUrl(student, task);
            StartsWith(r, BaseUrl) && EndsWith(r, ".git") &&
            |r| == |BaseUrl| + |RepoName(student, task)| + 4 && r[|BaseUrl|..|r| - 4] == RepoName(student, task)
  {
    Framed(BaseUrl, RepoName(student, task), ".git");
  }

  /** The source directory recorded for a student: `<out>/<task>/<repo>/src`. */
  function SourceDir(out: Path, task: string, student: string): Path {
    Paths.Join(Paths.Join(Paths.Join(out, task), RepoName(student, task)), "src")
  }

  /** `create_payload` finds the task and the student's README from the
      directory recorded for the student. */
  lemma SourceDirNames(out: Path, task: string, student: string)
    ensures Pipeline.TaskName(SourceDir(out, task, student)) == task
    ensures Pipeline.ReadmePath(SourceDir(out, task, student)) == out + [task, RepoName(student, task), "README.md"]
  {
    assert SourceDir(out, task, student) == out + [task, RepoName(student, task), "src"];
    Pipeline.TaskNameOfClonedSource(out, task, RepoName(student, task));
  }

  /** Distinct students get distinct source directories. */
  lemma SourceDirInjective(out: Path, task: string, a: string, b: string)
    ensures SourceDir(out, task, a) == SourceDir(out, task, b) <==> a == b
  {
    if SourceDir(out, task, a) == SourceDir(out, task, b) {
      assert SourceDir(out, task, a)[|out| + 1] == RepoName(a, task);
      RepoNameInjective(a, b, task);
    }
  }

  /** The loop of `clone_repos` that fills the manifest: one entry per
      student, whether or not the clone succeeded (its exit status is not
      examined). A repeated student overwrites the same entry. */
  method BuildManifest(students: seq<string>, out: Path, task: string)
    returns (manifest: map<string, Path>, urls: seq<string>)
    ensures forall s :: s in manifest <==> s in students
    ensures forall s :: s in manifest ==> manifest[s] == SourceDir(out, task, s)
    ensures |urls| == |students|
    ensures forall k :: 0 <= k < |students| ==> urls[k] == CloneUrl(students[k], task)
  {
    manifest, urls := map[], [];
    var i := 0;
    while i < |students|
      invariant 0 <= i <= |students|
      invariant forall s :: s in manifest <==> s in students[..i]
      invariant forall s :: s in manifest ==> manifest[s] == SourceDir(out, task, s)
      invariant |urls| == i
      invariant forall k :: 0 <= k < i ==> urls[k] == CloneUrl(students[k], task)
    {
      var student := students[i];
      assert students[..i + 1] == students[..i] + [student];
      urls := urls + [CloneUrl(student, task)];
      manifest := manifest[student := SourceDir(out, task, student)];
      i := i + 1;
    }
    assert students[..i] == students;
  }

  /** Every manifest `clone_repos` writes is one that `create_payload` reads
      consistently: the first entry names the task, and each entry's
      repository holds its own `README.md`. */
  lemma ManifestTask(manifest: map<string, Path>, out: Path, task: string, s: string)
    requires forall x :: x in manifest ==> manifest[x] == SourceDir(out, task, x)
    requires s in manifest
    ensures Pipeline.TaskName(manifest[s]) == task
    ensures forall x :: x in manifest && x != s ==> manifest[x] != manifest[s]
  {
    SourceDirNames(out, task, s);
    forall x | x in manifest && x != s ensures manifest[x] != manifest[s] {
      SourceDirInjective(out, task, x, s);
    }
  }
}
