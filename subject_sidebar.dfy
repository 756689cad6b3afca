/** The sidebar that lists subjects: the department choices of its filter and the subjects
    that pass the search box and the department filter. */
module SubjectSidebar {
  import opened Util
  import opened Text
  import opened Subjects

  /** The distinct elements of `s` in the order they first occur (`[...new Set(s)]`). */
  function Distinct(s: seq<string>): (r: seq<string>)
    ensures NoDup(r)
    ensures forall x :: x in r <==> x in s
    decreases |s|
  {
    if s == [] then []
    else
      var r := Distinct(s[..|s| - 1]);
      assert forall x :: x in s <==> x in s[..|s| - 1] || x == s[|s| - 1];
      if s[|s| - 1] in r then r else r + [s[|s| - 1]]
  }

  function Departments(subjects: seq<Subject>): (r: seq<string>)
    ensures |r| == |subjects|
    ensures forall i :: 0 <= i < |r| ==> r[i] == subjects[i].department
  {
    seq(|subjects|, i requires 0 <= i < |subjects| => subjects[i].department)
  }

  /** `departments`: 'all' and the distinct departments, sorted. */
  function DepartmentChoices(subjects: seq<Subject>): (r: seq<string>)
    ensures Sorted(r)
    ensures multiset(r) == multiset(["all"] + Distinct(Departments(subjects)))
  {
    Sort(["all"] + Distinct(Departments(subjects)))
  }

  /** The list holds 'all' and exactly the departments of the subjects. */
  lemma ChoicesAreDepartments(subjects: seq<Subject>)
    ensures "all" in DepartmentChoices(subjects)
    ensures forall d :: d in DepartmentChoices(subjects)
                        <==> d == "all" || exists i :: 0 <= i < |subjects| && subjects[i].department == d
  {
    var r := DepartmentChoices(subjects);
    var ds := Departments(subjects);
    forall d ensures d in r <==> d in ["all"] + Distinct(ds) {
      assert d in r <==> d in multiset(r);
    }
    forall d | d in ds ensures exists i :: 0 <= i < |subjects| && subjects[i].department == d {
      var i :| 0 <= i < |ds| && ds[i] == d;
    }
    forall i | 0 <= i < |subjects| ensures subjects[i].department in ds {
      assert ds[i] == subjects[i].department;
    }
  }

  /** The list has no repeated entry exactly when no department is itself named 'all'. */
  lemma ChoicesDistinctIff(subjects: seq<Subject>)
    ensures NoDup(DepartmentChoices(subjects))
            <==> forall i :: 0 <= i < |subjects| ==> subjects[i].department != "all"
  {
    var r := DepartmentChoices(subjects);
    var ds := Departments(subjects);
    var u := ["all"] + Distinct(ds);
    NoDupMultiset(r);
    NoDupMultiset(u);
    NoDupMultiset(Distinct(ds));
    assert forall x :: multiset(u)[x] == (if x == "all" then 1 else 0) + multiset(Distinct(ds))[x];
    if exists i :: 0 <= i < |subjects| && subjects[i].department == "all" {
      var i :| 0 <= i < |subjects| && subjects[i].department == "all";
      assert ds[i] == "all";
      assert "all" in Distinct(ds);
      assert multiset(u)["all"] >= 2;
    } else {
      assert "all" !in ds;
      assert "all" !in Distinct(ds);
    }
  }

  /** A list has no repeated entry exactly when its multiset counts no element twice. */
  lemma {:induction false} NoDupMultiset(s: seq<string>)
    ensures NoDup(s) <==> forall x :: multiset(s)[x] <= 1
  {
    if s != [] {
      var t := s[1..];
      NoDupMultiset(t);
      assert s == [s[0]] + t;
      assert forall x :: multiset(s)[x] == (if x == s[0] then 1 else 0) + multiset(t)[x];
      assert NoDup(s) <==> s[0] !in t && NoDup(t) by {
        if NoDup(s) {
          forall i, j | 0 <= i < j < |t| ensures t[i] != t[j] {
            assert t[i] == s[i + 1] && t[j] == s[j + 1];
          }
          forall k | 0 <= k < |t| ensures t[k] != s[0] {
            assert t[k] == s[k + 1];
          }
        }
        if s[0] !in t && NoDup(t) {
          forall i, j | 0 <= i < j < |s| ensures s[i] != s[j] {
            if i == 0 {
              assert s[j] == t[j - 1];
            } else {
              assert s[i] == t[i - 1] && s[j] == t[j - 1];
            }
          }
        }
      }
      assert s[0] in t <==> multiset(t)[s[0]] > 0;
    }
  }

  /** The options of the department drop-down: every choice but 'all'. */
  function DropdownOptions(choices: seq<string>): (r: seq<string>)
    ensures "all" !in r
    ensures forall d :: d in r <==> d in choices && d != "all"
    ensures IsSublist(r, choices)
  {
    FilterIsSublist(choices, d => d != "all");
    FilterMembers(choices, d => d != "all");
    Filter(choices, d => d != "all")
  }

  /** The search test: an empty query matches everything, otherwise the name or the code
      contains the query, ignoring case. */
  predicate MatchesSearch(s: Subject, searchQuery: string) {
    if searchQuery != "" then
      IncludesIgnoringCase(s.name, searchQuery) || IncludesIgnoringCase(s.code, searchQuery)
    else true
  }

  predicate MatchesDepartment(s: Subject, departmentFilter: string) {
    departmentFilter == "all" || s.department == departmentFilter
  }

  /** `filteredSubjects`: the subjects that pass both filters, in their order. */
  function FilteredSubjects(subjects: seq<Subject>, searchQuery: string, departmentFilter: string)
    : (r: seq<Subject>)
    ensures forall s :: s in r <==> s in subjects && MatchesSearch(s, searchQuery)
                                    && MatchesDepartment(s, departmentFilter)
    ensures departmentFilter != "all" ==> forall s :: s in r ==> s.department == departmentFilter
    ensures searchQuery != "" ==>
              forall s :: s in r ==> IncludesIgnoringCase(s.name, searchQuery)
                                     || IncludesIgnoringCase(s.code, searchQuery)
    ensures IsSublist(r, subjects)
  {
    var keep := (s: Subject) => MatchesSearch(s, searchQuery) && MatchesDepartment(s, departmentFilter);
    FilterIsSublist(subjects, keep);
    FilterMembers(subjects, keep);
    Filter(subjects, keep)
  }

  /** With an empty search and the 'all' department every subject is listed, in order. */
  lemma NoFilterListsAll(subjects: seq<Subject>)
    ensures FilteredSubjects(subjects, "", "all") == subjects
  {
    FilterKeepsAll(subjects, (s: Subject) => MatchesSearch(s, "") && MatchesDepartment(s, "all"));
  }
}
