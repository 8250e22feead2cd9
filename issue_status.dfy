/** `check_issues`: for every student on the list, the statuses read off the
    titles of the issues in the student's repository, and the symbol the
    status table shows for each. The tracker is the parameter `fetch`. */
module IssueStatus {
  import opened Wrappers
  import opened Text
  import opened Roster

  /** The statuses a row can carry: a keyword, or `NULL` for a student none
      of whose issues matched. */
  datatype Status = Pass | Fail | Komp | Komplettering | Null

  /** The text of a status, as the table shows it. */
  function Name(s: Status): string {
    match s
    case Pass => "PASS"
    case Fail => "FAIL"
    case Komp => "KOMP"
    case Komplettering => "KOMPLETTERING"
    case Null => "NULL"
  }

  /** The status keywords, in the order they are tried on a title. */
  const Keywords: seq<Status> := [Pass, Fail, Komp, Komplettering]

  /** One row of the status table. */
  datatype StatusIssue = StatusIssue(studentId: string, status: Status)

  /** What the tracker answers for one repository's issue list: whether the
      request succeeded, the status line it reported, and the issue titles. */
  datatype Listing = Listing(success: bool, statusLine: string, titles: seq<string>)

  /** The tracker's address for a repository's issues. */
  function IssuesUrl(repo: string): string {
    "https://gits-15.sys.kth.se/api/v3/repos/inda-25/" + repo + "/issues"
  }

  lemma KeywordsUpper()
    ensures forall k :: k in Keywords ==> ToUpper(Name(k)) == Name(k)
  {
    assert ToUpper("PASS") == "PASS";
    assert ToUpper("FAIL") == "FAIL";
    assert ToUpper("KOMP") == "KOMP";
    assert ToUpper("KOMPLETTERING") == "KOMPLETTERING";
  }

  // ---------------------------------------------------------------- One title

  /** The first keyword from index `j` on that occurs in `upper`. */
  function FirstFrom(upper: string, j: nat): Option<Status>
    requires j <= |Keywords|
    decreases |Keywords| - j
  {
    if j == |Keywords| then None
    else if Contains(upper, Name(Keywords[j])) then Some(Keywords[j])
    else FirstFrom(upper, j + 1)
  }

  /** The search finds nothing exactly when no keyword from `j` on occurs,
      and what it finds is such a keyword. */
  lemma {:induction false} FirstFromSpec(upper: string, j: nat)
    requires j <= |Keywords|
    ensures FirstFrom(upper, j).None? <==> forall i :: j <= i < |Keywords| ==> !Contains(upper, Name(Keywords[i]))
    ensures FirstFrom(upper, j).Some? ==>
              exists i :: j <= i < |Keywords| && FirstFrom(upper, j).value == Keywords[i] && Contains(upper, Name(Keywords[i]))
    decreases |Keywords| - j
  {
    if j < |Keywords| && !Contains(upper, Name(Keywords[j])) {
      FirstFromSpec(upper, j + 1);
    }
  }

  /** The status a title yields: the first keyword, in `Keywords` order,
      that occurs in the upper-cased title. */
  function Classify(title: string): Option<Status> {
    FirstFrom(ToUpper(title), 0)
  }

  /** A title yields no status exactly when it holds none of the keywords in any casing. */
  lemma ClassifyNone(title: string)
    ensures Classify(title).None? <==> forall k :: k in Keywords ==> !Contains(ToUpper(title), Name(k))
  {
    FirstFromSpec(ToUpper(title), 0);
  }

  /** Matching ignores the case of the title. */
  lemma ClassifyIgnoresCase(title: string)
    ensures Classify(ToUpper(title)) == Classify(title)
  {
    ToUpperIdempotent(title);
  }

  /** A title that holds a keyword in any casing yields some status. */
  lemma ClassifyFindsKeyword(title: string, k: Status)
    requires k in Keywords && Contains(title, Name(k))
    ensures Classify(title).Some?
  {
    ContainsToUpper(title, Name(k));
    KeywordsUpper();
    ClassifyNone(title);
  }

  /** `KOMPLETTERING` is never the status: every title holding it also holds
      `KOMP`, which is tried first. */
  lemma KomplitteringNeverClassified(title: string)
    ensures Classify(title) != Some(Komplettering)
  {
    var upper := ToUpper(title);
    if Contains(upper, Name(Komplettering)) {
      ContainsPrefix(upper, Name(Komplettering), 4);
      assert Name(Komplettering)[..4] == Name(Komp);
      assert FirstFrom(upper, 2) == Some(Komp);
    } else {
      FirstFromSpec(upper, 0);
    }
  }

  /** The inner loop of `check_issues` over the keywords, which stops at the first match. */
  method MatchKeyword(title: string) returns (status: Option<Status>)
    ensures status == Classify(title)
  {
    KeywordsUpper();
    status := None;
    var j := 0;
    while j < |Keywords|
      invariant 0 <= j <= |Keywords|
      invariant FirstFrom(ToUpper(title), 0) == FirstFrom(ToUpper(title), j)
    {
      var issueUpper := ToUpper(title);
      var keywordUpper := ToUpper(Name(Keywords[j]));
      if Contains(issueUpper, keywordUpper) {
        status := Some(Keywords[j]);
        break;
      }
      j := j + 1;
    }
  }

  // ---------------------------------------------------------------- One student

  /** The row a matching title adds, if any. */
  function MatchRow(student: string, title: string): seq<StatusIssue> {
    match Classify(title)
    case Some(k) => [StatusIssue(student, k)]
    case None => []
  }

  /** The statuses of the first `n` titles that match, one per matching issue, in order. */
  function MatchesUpTo(student: string, titles: seq<string>, n: nat): seq<StatusIssue>
    requires n <= |titles|
    decreases n
  {
    if n == 0 then [] else MatchesUpTo(student, titles, n - 1) + MatchRow(student, titles[n - 1])
  }

  /** Each matching title among the first `n` adds one row for the student,
      with a keyword other than `KOMPLETTERING`. */
  lemma {:induction false} MatchesUpToRows(student: string, titles: seq<string>, n: nat)
    requires n <= |titles|
    ensures |MatchesUpTo(student, titles, n)| <= n
    ensures forall e :: e in MatchesUpTo(student, titles, n) ==>
              e.studentId == student && e.status in Keywords && e.status != Komplettering
    decreases n
  {
    if n > 0 {
      MatchesUpToRows(student, titles, n - 1);
      KomplitteringNeverClassified(titles[n - 1]);
    }
  }

  /** No row comes from the first `n` titles exactly when none of them matches. */
  lemma {:induction false} MatchesUpToEmpty(student: string, titles: seq<string>, n: nat)
    requires n <= |titles|
    ensures MatchesUpTo(student, titles, n) == [] <==> forall i :: 0 <= i < n ==> Classify(titles[i]).None?
    decreases n
  {
    if n > 0 {
      MatchesUpToEmpty(student, titles, n - 1);
    }
  }

  /** The statuses of the matching titles, one per matching issue, in order. */
  function Matches(student: string, titles: seq<string>): seq<StatusIssue> {
    MatchesUpTo(student, titles, |titles|)
  }

  lemma MatchesEmpty(student: string, titles: seq<string>)
    ensures Matches(student, titles) == [] <==> forall t :: t in titles ==> Classify(t).None?
  {
    MatchesUpToEmpty(student, titles, |titles|);
  }

  /** The rows for one student: one per matching issue, or a single `NULL`
      row when no issue matches. */
  function StudentRows(student: string, titles: seq<string>): seq<StatusIssue> {
    var m := Matches(student, titles);
    if m == [] then [StatusIssue(student, Null)] else m
  }

  /** Every row of a student is the student's, with a status a row can carry. */
  lemma StudentRowsRecorded(student: string, titles: seq<string>)
    ensures forall e :: e in StudentRows(student, titles) ==> e.studentId == student && Recorded(e.status)
  {
    MatchesUpToRows(student, titles, |titles|);
  }

  /** Every student gets at least one row and never more than one per issue. */
  lemma StudentRowsCount(student: string, titles: seq<string>)
    ensures 1 <= |StudentRows(student, titles)|
    ensures titles != [] ==> |StudentRows(student, titles)| <= |titles|
  {
    MatchesUpToRows(student, titles, |titles|);
  }

  /** The `NULL` row appears exactly when no title matched, and then alone. */
  lemma StudentRowsNull(student: string, titles: seq<string>)
    ensures StatusIssue(student, Null) in StudentRows(student, titles) <==>
              forall t :: t in titles ==> Classify(t).None?
    ensures StatusIssue(student, Null) in StudentRows(student, titles) ==>
              StudentRows(student, titles) == [StatusIssue(student, Null)]
  {
    MatchesEmpty(student, titles);
    MatchesUpToRows(student, titles, |titles|);
    if Matches(student, titles) != [] {
      assert StatusIssue(student, Null) !in Matches(student, titles);
    }
  }

  /** The loop of `check_issues` over one student's issues, with its
      `found_matching_title` flag. */
  method StudentIssues(student: string, titles: seq<string>) returns (rows: seq<StatusIssue>)
    ensures rows == StudentRows(student, titles)
  {
    rows := [];
    var found := false;
    var i := 0;
    while i < |titles|
      invariant 0 <= i <= |titles|
      invariant rows == MatchesUpTo(student, titles, i)
      invariant found <==> rows != []
    {
      var status := MatchKeyword(titles[i]);
      if status.Some? {
        rows := rows + [StatusIssue(student, status.value)];
        found := true;
      }
      i := i + 1;
    }
    if !found {
      rows := rows + [StatusIssue(student, Null)];
    }
  }

  // ---------------------------------------------------------------- All students

  /** The error a failed listing aborts the check with. */
  function ApiError(statusLine: string): string {
    "API error: " + statusLine
  }

  /** What the tracker answers for a student's repository. */
  function ListingOf(student: string, task: string, fetch: string -> Listing): Listing {
    fetch(IssuesUrl(RepoName(student, task)))
  }

  /** The table for the first `n` students, or the error of the first
      student whose listing failed. */
  function TableUpTo(students: seq<string>, n: nat, task: string, fetch: string -> Listing): Result<seq<StatusIssue>, string>
    requires n <= |students|
    decreases n
  {
    if n == 0 then Ok([])
    else Extend(TableUpTo(students, n - 1, task, fetch), students[n - 1], task, fetch)
  }

  /** The table for a list of students, or the error of the first student
      whose listing failed. */
  function Table(students: seq<string>, task: string, fetch: string -> Listing): Result<seq<StatusIssue>, string> {
    TableUpTo(students, |students|, task, fetch)
  }

  /** One more student: an earlier failure stands; otherwise the student's
      rows are appended, or the failed listing's status line is the error. */
  function Extend(table: Result<seq<StatusIssue>, string>, s: string, task: string, fetch: string -> Listing)
    : Result<seq<StatusIssue>, string>
  {
    match table
    case Err(e) => Err(e)
    case Ok(rows) =>
      var listing := ListingOf(s, task, fetch);
      if listing.success then Ok(rows + StudentRows(s, listing.titles))
      else Err(ApiError(listing.statusLine))
  }

  /** The first `n` students give a table exactly when each of their listings succeeds. */
  lemma {:induction false} TableUpToOk(students: seq<string>, n: nat, task: string, fetch: string -> Listing)
    requires n <= |students|
    ensures TableUpTo(students, n, task, fetch).Ok? <==>
              forall i :: 0 <= i < n ==> ListingOf(students[i], task, fetch).success
    decreases n
  {
    if n > 0 {
      TableUpToOk(students, n - 1, task, fetch);
    }
  }

  /** The table is produced exactly when every student's listing succeeds. */
  lemma TableOk(students: seq<string>, task: string, fetch: string -> Listing)
    ensures Table(students, task, fetch).Ok? <==>
              forall s :: s in students ==> ListingOf(s, task, fetch).success
  {
    TableUpToOk(students, |students|, task, fetch);
  }

  /** Student `i` is the first whose listing failed. */
  predicate FirstFailure(students: seq<string>, task: string, fetch: string -> Listing, i: nat)
    requires i < |students|
  {
    !ListingOf(students[i], task, fetch).success &&
    forall j :: 0 <= j < i ==> ListingOf(students[j], task, fetch).success
  }

  /** A failure among the first `n` students reports the first failing listing. */
  lemma {:induction false} TableUpToErr(students: seq<string>, n: nat, task: string, fetch: string -> Listing)
    requires n <= |students| && TableUpTo(students, n, task, fetch).Err?
    ensures exists i :: 0 <= i < n && FirstFailure(students, task, fetch, i) &&
              TableUpTo(students, n, task, fetch).error == ApiError(ListingOf(students[i], task, fetch).statusLine)
    decreases n
  {
    if TableUpTo(students, n - 1, task, fetch).Err? {
      TableUpToErr(students, n - 1, task, fetch);
    } else {
      TableUpToOk(students, n - 1, task, fetch);
      assert FirstFailure(students, task, fetch, n - 1);
    }
  }

  /** A failed table reports the status line of the first failing listing. */
  lemma TableErr(students: seq<string>, task: string, fetch: string -> Listing)
    requires Table(students, task, fetch).Err?
    ensures exists i :: 0 <= i < |students| && FirstFailure(students, task, fetch, i) &&
              Table(students, task, fetch).error == ApiError(ListingOf(students[i], task, fetch).statusLine)
  {
    TableUpToErr(students, |students|, task, fetch);
  }

  /** The statuses a row can carry. */
  predicate Recorded(status: Status) {
    status == Null || (status in Keywords && status != Komplettering)
  }

  /** A failure among the first `k` students decides the table of the first `n`. */
  lemma {:induction false} TableErrStays(students: seq<string>, k: nat, n: nat, task: string, fetch: string -> Listing)
    requires k <= n <= |students| && TableUpTo(students, k, task, fetch).Err?
    ensures TableUpTo(students, n, task, fetch) == TableUpTo(students, k, task, fetch)
    decreases n
  {
    if k < n {
      TableErrStays(students, k, n - 1, task, fetch);
    }
  }

  /** Every row of a table produced for the first `n` students is a
      student's, and its status is a keyword other than `KOMPLETTERING`, or `NULL`. */
  lemma {:induction false} TableUpToRows(students: seq<string>, n: nat, task: string, fetch: string -> Listing)
    requires n <= |students| && TableUpTo(students, n, task, fetch).Ok?
    ensures forall e :: e in TableUpTo(students, n, task, fetch).value ==>
              e.studentId in students && Recorded(e.status)
    decreases n
  {
    if n > 0 {
      var prev := TableUpTo(students, n - 1, task, fetch);
      var s := students[n - 1];
      var listing := ListingOf(s, task, fetch);
      assert prev.Ok? && listing.success;
      var rows := StudentRows(s, listing.titles);
      assert TableUpTo(students, n, task, fetch).value == prev.value + rows;
      TableUpToRows(students, n - 1, task, fetch);
      StudentRowsRecorded(s, listing.titles);
      forall e | e in prev.value + rows
        ensures e.studentId in students && Recorded(e.status)
      {
        if e in rows {
          assert e.studentId == s;
        }
      }
    }
  }

  /** Every row of a produced table is a student's, and its status is a
      keyword other than `KOMPLETTERING`, or `NULL`. */
  lemma TableRows(students: seq<string>, task: string, fetch: string -> Listing)
    requires Table(students, task, fetch).Ok?
    ensures forall e :: e in Table(students, task, fetch).value ==>
              e.studentId in students && Recorded(e.status)
  {
    TableUpToRows(students, |students|, task, fetch);
  }

  /** One more student after a produced table. */
  lemma TableNext(students: seq<string>, n: nat, task: string, fetch: string -> Listing, rows: seq<StatusIssue>)
    requires n < |students| && TableUpTo(students, n, task, fetch) == Ok(rows)
    ensures var listing := ListingOf(students[n], task, fetch);
            TableUpTo(students, n + 1, task, fetch) ==
              if listing.success then Ok(rows + StudentRows(students[n], listing.titles))
              else Err(ApiError(listing.statusLine))
  {
  }

  /** The loop of `check_issues` over the students, stopping at the first
      failed listing. */
  method CheckStudents(students: seq<string>, task: string, fetch: string -> Listing)
    returns (r: Result<seq<StatusIssue>, string>)
    ensures r == Table(students, task, fetch)
  {
    var list := [];
    var n := 0;
    while n < |students|
      invariant 0 <= n <= |students|
      invariant TableUpTo(students, n, task, fetch) == Ok(list)
    {
      var student := students[n];
      var repo := student + "-" + task;
      var response := fetch(IssuesUrl(repo));
      TableNext(students, n, task, fetch, list);
      if response.success {
        var rows := StudentIssues(student, response.titles);
        list := list + rows;
      } else {
        TableErrStays(students, n + 1, |students|, task, fetch);
        return Err(ApiError(response.statusLine));
      }
      n := n + 1;
    }
    r := Ok(list);
  }

  /** `check_issues` on the lines of the student list. */
  method CheckIssues(lines: seq<string>, task: string, fetch: string -> Listing)
    returns (r: Result<seq<StatusIssue>, string>)
    ensures r == Table(Students(lines), task, fetch)
  {
    var students := ParseStudents(lines);
    r := CheckStudents(students, task, fetch);
  }

  // ---------------------------------------------------------------- Presentation

  /** The symbol the status table shows beside a status. */
  function Emoji(status: string): string {
    match status
    case "PASS" => "\U{2705}"
    case "FAIL" => "\U{274C}"
    case "KOMP" => "\U{1F504}"
    case "KOMPLETTERING" => "\U{1F504}"
    case _ => "\U{2753}"
  }

  /** In a produced table, only the `NULL` rows show the question mark. */
  lemma TableEmoji(students: seq<string>, task: string, fetch: string -> Listing)
    requires Table(students, task, fetch).Ok?
    ensures forall e :: e in Table(students, task, fetch).value ==>
              (Emoji(Name(e.status)) == "\U{2753}" <==> e.status == Null)
  {
    TableRows(students, task, fetch);
  }
}
