/** The student enrollment panel of a subject: which students each tab lists, which groups
    can be chosen, the selection of students, and the three bulk handlers that run an
    enrollment operation once per selected student. The enrollment operations themselves
    belong to an engine this model does not see; `EnrollmentEngine` stands for any run of it. */
module EnrollmentPanel {
  import opened Util
  import opened Text
  import opened Subjects

  datatype Tab = Enrolled | Available

  // ---------------------------------------------------------------------------
  // The student lists

  /** `getUsersByRole('student').filter(student => student.isActive)`. */
  function ActiveStudents(users: seq<Student>): (r: seq<Student>)
    ensures forall s :: s in r <==> s in users && s.isActive
  {
    FilterMembers(users, (s: Student) => s.isActive);
    Filter(users, (s: Student) => s.isActive)
  }

  /** `subjectEnrollments.map(enrollment => enrollment.studentId)`. */
  function EnrolledIds(enrollments: seq<Enrollment>): (r: seq<string>)
    ensures |r| == |enrollments|
    ensures forall i :: 0 <= i < |r| ==> r[i] == enrollments[i].studentId
  {
    seq(|enrollments|, i requires 0 <= i < |enrollments| => enrollments[i].studentId)
  }

  /** The search box: the name or the e-mail contains the query, ignoring case. */
  predicate MatchesSearch(s: Student, query: string) {
    IncludesIgnoringCase(s.name, query) || IncludesIgnoringCase(s.email, query)
  }

  /** The test `filteredStudents` applies on the given tab. */
  predicate ShownOnTab(s: Student, enrolledIds: seq<string>, query: string, tab: Tab) {
    if tab == Enrolled then s.id in enrolledIds && MatchesSearch(s, query)
    else s.id !in enrolledIds && MatchesSearch(s, query)
  }

  /** `filteredStudents`: the active students listed on `tab`. */
  function FilteredStudents(users: seq<Student>, enrolledIds: seq<string>, query: string,
                            tab: Tab): (r: seq<Student>)
    ensures forall s :: s in r <==> s in users && s.isActive && ShownOnTab(s, enrolledIds, query, tab)
  {
    FilterMembers(ActiveStudents(users), (s: Student) => ShownOnTab(s, enrolledIds, query, tab));
    Filter(ActiveStudents(users), (s: Student) => ShownOnTab(s, enrolledIds, query, tab))
  }

  /** The two tabs split the active students matching the search: no student is on both, every
      such student is on one, and the two lists together are exactly as long as that list. */
  lemma TabsPartition(users: seq<Student>, enrolledIds: seq<string>, query: string)
    ensures forall s :: !(s in FilteredStudents(users, enrolledIds, query, Enrolled)
                          && s in FilteredStudents(users, enrolledIds, query, Available))
    ensures forall s :: (s in FilteredStudents(users, enrolledIds, query, Enrolled)
                         || s in FilteredStudents(users, enrolledIds, query, Available))
                        <==> s in users && s.isActive && MatchesSearch(s, query)
    ensures |FilteredStudents(users, enrolledIds, query, Enrolled)|
            + |FilteredStudents(users, enrolledIds, query, Available)|
            == |Filter(ActiveStudents(users), (s: Student) => MatchesSearch(s, query))|
  {
    FilterPartition(ActiveStudents(users), (s: Student) => MatchesSearch(s, query),
                    (s: Student) => ShownOnTab(s, enrolledIds, query, Enrolled),
                    (s: Student) => ShownOnTab(s, enrolledIds, query, Available));
  }

  /** Each tab lists active students in the order of the user directory. */
  lemma TabIsSublist(users: seq<Student>, enrolledIds: seq<string>, query: string, tab: Tab)
    ensures IsSublist(FilteredStudents(users, enrolledIds, query, tab), users)
  {
    FilterIsSublist(users, (s: Student) => s.isActive);
    FilterIsSublist(ActiveStudents(users), (s: Student) => ShownOnTab(s, enrolledIds, query, tab));
    SublistTransitive(FilteredStudents(users, enrolledIds, query, tab), ActiveStudents(users), users);
  }

  /** `availableGroups`: the groups of the chosen level that still have room, in their order. */
  function AvailableGroups(groups: seq<Group>, selectedLevel: string): (r: seq<Group>)
    ensures forall g :: g in r <==> g in groups && g.levelId == selectedLevel
                                    && g.currentStudents < g.maxStudents
    ensures IsSublist(r, groups)
  {
    var hasRoom := (g: Group) => g.levelId == selectedLevel && g.currentStudents < g.maxStudents;
    FilterIsSublist(groups, hasRoom);
    FilterMembers(groups, hasRoom);
    Filter(groups, hasRoom)
  }

  // ---------------------------------------------------------------------------
  // The selection

  /** `toggleStudentSelection`'s new list: every occurrence of a selected id is removed, an
      unselected id is appended. */
  function ToggleSelection(selected: seq<string>, id: string): (r: seq<string>)
    ensures id in r <==> id !in selected
    ensures forall x :: x != id ==> (x in r <==> x in selected)
    ensures id !in selected ==> r == selected + [id]
    ensures id in selected ==> IsSublist(r, selected)
    ensures id in selected ==> multiset(r) == multiset(selected)[id := 0]
  {
    if id in selected then
      FilterMembers(selected, x => x != id);
      FilterIsSublist(selected, x => x != id);
      FilterOutMultiset(selected, x => x != id, id);
      Filter(selected, x => x != id)
    else selected + [id]
  }

  /** A selection without duplicates stays without duplicates. */
  lemma ToggleKeepsNoDup(selected: seq<string>, id: string)
    requires NoDup(selected)
    ensures NoDup(ToggleSelection(selected, id))
  {
    if id in selected {
      FilterIsSublist(selected, x => x != id);
      SublistNoDup(ToggleSelection(selected, id), selected);
    }
  }

  /** Selecting an unselected student and unselecting it again restores the selection. */
  lemma ToggleTwiceRestores(selected: seq<string>, id: string)
    requires id !in selected
    ensures ToggleSelection(ToggleSelection(selected, id), id) == selected
  {
    var p := (x: string) => x != id;
    FilterAppend(selected, [id], p);
    FilterKeepsAll(selected, p);
    assert Filter([id], p) == [];
  }

  function Ids(students: seq<Student>): (r: seq<string>)
    ensures |r| == |students|
    ensures forall i :: 0 <= i < |r| ==> r[i] == students[i].id
  {
    seq(|students|, i requires 0 <= i < |students| => students[i].id)
  }

  /** `toggleSelectAll`'s new list. Only the lengths are compared: a selection as long as the
      visible list is cleared whatever ids it holds. */
  function ToggleSelectAll(selected: seq<string>, visible: seq<Student>): (r: seq<string>)
    ensures |selected| == |visible| ==> r == []
    ensures |selected| != |visible| ==> |r| == |visible|
                                        && forall i :: 0 <= i < |r| ==> r[i] == visible[i].id
  {
    if |selected| == |visible| then [] else Ids(visible)
  }

  // ---------------------------------------------------------------------------
  // Lookups

  /** `getStudentEnrollment`: the first enrollment of the student, if any. */
  function GetStudentEnrollment(enrollments: seq<Enrollment>, studentId: string)
    : (r: Option<Enrollment>)
    ensures r.Some? <==> exists i :: 0 <= i < |enrollments| && enrollments[i].studentId == studentId
    ensures r.Some? ==> exists i :: 0 <= i < |enrollments| && enrollments[i] == r.value
                                    && forall j :: 0 <= j < i ==> enrollments[j].studentId != studentId
    ensures r.Some? ==> r.value.studentId == studentId
  {
    var p := (e: Enrollment) => e.studentId == studentId;
    var found := Find(enrollments, p);
    if found.Some? then
      assert enrollments[FindIndex(enrollments, p).value] == found.value;
      found
    else found
  }

  const Unknown := "Desconocido"

  /** `getLevelName`: the name of the first level with the id; an unknown id, or a name that
      is empty, gives "Desconocido". */
  function GetLevelName(levels: seq<Level>, levelId: string): (r: string)
    ensures (forall i :: 0 <= i < |levels| ==> levels[i].id != levelId) ==> r == Unknown
    ensures forall i :: 0 <= i < |levels| && levels[i].id == levelId
                        && (forall j :: 0 <= j < i ==> levels[j].id != levelId)
                        ==> r == (if levels[i].name != "" then levels[i].name else Unknown)
  {
    var index := FindIndex(levels, (l: Level) => l.id == levelId);
    if index.Some? && levels[index.value].name != "" then levels[index.value].name else Unknown
  }

  /** `getGroupName`, the same lookup over the groups. */
  function GetGroupName(groups: seq<Group>, groupId: string): (r: string)
    ensures (forall i :: 0 <= i < |groups| ==> groups[i].id != groupId) ==> r == Unknown
    ensures forall i :: 0 <= i < |groups| && groups[i].id == groupId
                        && (forall j :: 0 <= j < i ==> groups[j].id != groupId)
                        ==> r == (if groups[i].name != "" then groups[i].name else Unknown)
  {
    var index := FindIndex(groups, (g: Group) => g.id == groupId);
    if index.Some? && groups[index.value].name != "" then groups[index.value].name else Unknown
  }

  // ---------------------------------------------------------------------------
  // The enrollment engine, seen from the panel

  datatype BulkAction = Enroll | Remove | ChangeLevel

  /** One call of `enrollStudent`, `removeStudent` or `changeLevelStudent`, with its note. */
  datatype Call =
    | EnrollStudent(studentId: string, subjectId: string, levelId: string, groupId: string,
                    note: string)
    | RemoveStudent(studentId: string, subjectId: string, note: string)
    | ChangeLevelStudent(studentId: string, subjectId: string, levelId: string, groupId: string,
                         note: string)

  const EnrollNote := "Inscripción manual desde panel de gestión"
  const RemoveNote := "Eliminación manual desde panel de gestión"
  const ChangeLevelNote := "Cambio de nivel manual desde panel de gestión"

  /** The call a handler makes for one student. */
  function Request(action: BulkAction, studentId: string, subjectId: string, levelId: string,
                   groupId: string): Call
  {
    match action
    case Enroll => EnrollStudent(studentId, subjectId, levelId, groupId, EnrollNote)
    case Remove => RemoveStudent(studentId, subjectId, RemoveNote)
    case ChangeLevel => ChangeLevelStudent(studentId, subjectId, levelId, groupId, ChangeLevelNote)
  }

  /** The calls made for `ids`, one per id, in order. */
  function Requests(action: BulkAction, ids: seq<string>, subjectId: string, levelId: string,
                    groupId: string): (r: seq<Call>)
    ensures |r| == |ids|
    ensures forall i :: 0 <= i < |ids| ==> r[i] == Request(action, ids[i], subjectId, levelId, groupId)
  {
    seq(|ids|, i requires 0 <= i < |ids| => Request(action, ids[i], subjectId, levelId, groupId))
  }

  /** The engine as the panel sees it: the calls made so far, and `respond(k)`, the reply to
      the k-th call ever made. Every behaviour of the unseen engine is some such function. */
  class EnrollmentEngine {
    var calls: seq<Call>
    const respond: nat -> Reply

    constructor(respond: nat -> Reply)
      ensures calls == [] && this.respond == respond
    {
      calls := [];
      this.respond := respond;
    }

    method Invoke(c: Call) returns (reply: Reply)
      modifies this
      ensures calls == old(calls) + [c]
      ensures reply == respond(|old(calls)|)
    {
      reply := respond(|calls|);
      calls := calls + [c];
    }
  }

  /** How many of the `n` calls numbered from `start` a loop that stops at the first throw
      makes: all of them when none throws, else up to and including the first that throws. */
  function Attempted(respond: nat -> Reply, start: nat, n: nat): (a: nat)
    ensures a <= n
    ensures n > 0 ==> a > 0
    decreases n
  {
    if n == 0 then 0
    else if respond(start).Threw? then 1
    else 1 + Attempted(respond, start + 1, n - 1)
  }

  /** The message of the first of those calls that throws, if one does. */
  function BulkFailure(respond: nat -> Reply, start: nat, n: nat): (f: Option<string>)
    ensures f.Some? ==> n > 0
    decreases n
  {
    if n == 0 then None
    else if respond(start).Threw? then Some(respond(start).message)
    else BulkFailure(respond, start + 1, n - 1)
  }

  /** Every call before the last attempted one returned, and the last one attempted threw
      when the batch stopped early. */
  lemma {:induction false} AttemptedStopsAtThrow(respond: nat -> Reply, start: nat, n: nat)
    ensures var a := Attempted(respond, start, n);
            (forall k :: start <= k < start + a - 1 ==> respond(k).Ok?)
            && (a < n ==> respond(start + a - 1).Threw?)
    decreases n
  {
    if n > 0 && respond(start).Ok? {
      AttemptedStopsAtThrow(respond, start + 1, n - 1);
    }
  }

  /** No failure is reported exactly when no call of the batch throws; then every call is
      made. A failure carries the message of the last call made, which threw. */
  lemma {:induction false} FailureIsLastAttempt(respond: nat -> Reply, start: nat, n: nat)
    ensures var f := BulkFailure(respond, start, n);
            (f.None? <==> forall k :: start <= k < start + n ==> respond(k).Ok?)
            && (f.None? ==> Attempted(respond, start, n) == n)
            && (f.Some? ==> respond(start + Attempted(respond, start, n) - 1) == Threw(f.value))
    decreases n
  {
    if n > 0 {
      if respond(start).Ok? {
        FailureIsLastAttempt(respond, start + 1, n - 1);
        var f := BulkFailure(respond, start, n);
        if f.None? {
          assert forall k :: start <= k < start + n ==> respond(k).Ok? by {
            forall k | start <= k < start + n ensures respond(k).Ok? {
              if k > start {
                assert start + 1 <= k < start + 1 + (n - 1);
              }
            }
          }
        } else {
          assert !respond(start + Attempted(respond, start, n) - 1).Ok?;
        }
      } else {
        assert !respond(start).Ok?;
      }
    }
  }

  /** A batch whose call `start + i` is the first to throw stops right after it. */
  lemma {:induction false} StopsAtFirstThrow(respond: nat -> Reply, start: nat, n: nat, i: nat)
    requires i < n && respond(start + i).Threw?
    requires forall k :: start <= k < start + i ==> respond(k).Ok?
    ensures Attempted(respond, start, n) == i + 1
    ensures BulkFailure(respond, start, n) == Some(respond(start + i).message)
    decreases i
  {
    if i > 0 {
      assert respond(start).Ok?;
      StopsAtFirstThrow(respond, start + 1, n - 1, i - 1);
    }
  }

  /** A batch in which no call throws makes every call and reports no failure. */
  lemma {:induction false} RunsToCompletion(respond: nat -> Reply, start: nat, n: nat)
    requires forall k :: start <= k < start + n ==> respond(k).Ok?
    ensures Attempted(respond, start, n) == n && BulkFailure(respond, start, n) == None
    decreases n
  {
    if n > 0 {
      assert respond(start).Ok?;
      RunsToCompletion(respond, start + 1, n - 1);
    }
  }

  // ---------------------------------------------------------------------------
  // The panel

  /** The banner the panel shows. `Done(action, n)` stands for the success text that reports
      `n` students enrolled, removed or moved. */
  datatype Notice = Error(message: string) | Done(action: BulkAction, count: nat)

  const SelectTarget := "Selecciona nivel, grupo y al menos un estudiante"
  const SelectStudent := "Selecciona al menos un estudiante"

  /** The fallback message when the thrown error has none. */
  function DefaultFailure(action: BulkAction): string {
    match action
    case Enroll => "Error al inscribir estudiantes"
    case Remove => "Error al eliminar estudiantes"
    case ChangeLevel => "Error al cambiar nivel de estudiantes"
  }

  class Panel {
    const subject: Subject
    const engine: EnrollmentEngine
    var activeTab: Tab
    var searchQuery: string
    var selectedLevel: string
    var selectedGroup: string
    var selectedStudents: seq<string>
    var notification: Option<Notice>
    var isProcessing: bool

    /** The initial state: the first level of the subject is chosen (`levels[0]?.id || ''`). */
    constructor(subject: Subject, engine: EnrollmentEngine)
      ensures this.subject == subject && this.engine == engine
      ensures activeTab == Enrolled && searchQuery == "" && selectedGroup == ""
      ensures selectedLevel == if |subject.levels| > 0 then subject.levels[0].id else ""
      ensures selectedStudents == [] && notification == None && !isProcessing
    {
      this.subject := subject;
      this.engine := engine;
      activeTab := Enrolled;
      searchQuery := "";
      selectedLevel := if |subject.levels| > 0 then subject.levels[0].id else "";
      selectedGroup := "";
      selectedStudents := [];
      notification := None;
      isProcessing := false;
    }

    /** Choosing a level. The effect that depends on `selectedLevel` runs only when its value
        changes, and then clears the chosen group; choosing the level already chosen keeps it. */
    method SelectLevel(levelId: string)
      modifies this
      ensures selectedLevel == levelId
      ensures selectedGroup == if levelId != old(selectedLevel) then "" else old(selectedGroup)
      ensures activeTab == old(activeTab) && searchQuery == old(searchQuery)
      ensures selectedStudents == old(selectedStudents) && notification == old(notification)
      ensures isProcessing == old(isProcessing)
    {
      if levelId != selectedLevel {
        selectedGroup := "";
      }
      selectedLevel := levelId;
    }

    method ToggleStudent(studentId: string)
      modifies this
      ensures selectedStudents == ToggleSelection(old(selectedStudents), studentId)
      ensures activeTab == old(activeTab) && searchQuery == old(searchQuery)
      ensures selectedLevel == old(selectedLevel) && selectedGroup == old(selectedGroup)
      ensures notification == old(notification) && isProcessing == old(isProcessing)
    {
      selectedStudents := ToggleSelection(selectedStudents, studentId);
    }

    /** "Select all" over the students the current tab lists. */
    method ToggleAll(users: seq<Student>, enrollments: seq<Enrollment>)
      modifies this
      ensures selectedStudents == ToggleSelectAll(old(selectedStudents),
                 FilteredStudents(users, EnrolledIds(enrollments), searchQuery, activeTab))
      ensures activeTab == old(activeTab) && searchQuery == old(searchQuery)
      ensures selectedLevel == old(selectedLevel) && selectedGroup == old(selectedGroup)
      ensures notification == old(notification) && isProcessing == old(isProcessing)
    {
      var visible := FilteredStudents(users, EnrolledIds(enrollments), searchQuery, activeTab);
      selectedStudents := ToggleSelectAll(selectedStudents, visible);
    }

    /** The `for ... await` loop inside the `try`: one call per selected student, in order,
        stopping at the first call that throws and reporting its message. */
    method RunBulk(action: BulkAction, ids: seq<string>, subjectId: string, levelId: string,
                   groupId: string)
      returns (failure: Option<string>)
      modifies engine
      ensures var n := Attempted(engine.respond, |old(engine.calls)|, |ids|);
              engine.calls == old(engine.calls) + Requests(action, ids, subjectId, levelId, groupId)[..n]
      ensures failure == BulkFailure(engine.respond, |old(engine.calls)|, |ids|)
    {
      ghost var start := |engine.calls|;
      ghost var requests := Requests(action, ids, subjectId, levelId, groupId);
      ghost var n := |ids|;
      for i := 0 to |ids|
        invariant engine.calls == old(engine.calls) + requests[..i]
        invariant Attempted(engine.respond, start, n) == i + Attempted(engine.respond, start + i, n - i)
        invariant BulkFailure(engine.respond, start, n) == BulkFailure(engine.respond, start + i, n - i)
      {
        var reply := engine.Invoke(Request(action, ids[i], subjectId, levelId, groupId));
        assert requests[..i + 1] == requests[..i] + [requests[i]];
        if reply.Threw? {
          return Some(reply.message);
        }
      }
      assert requests[..|ids|] == requests;
      return None;
    }

    /** The shared body of the three handlers once the guards pass: `isProcessing` is set for
        the loop and cleared in `finally`; success clears the selection and reports the count,
        a throw keeps the selection and reports the message. */
    method Process(action: BulkAction) returns (succeeded: bool)
      modifies this, engine
      ensures var n := Attempted(engine.respond, |old(engine.calls)|, |old(selectedStudents)|);
              engine.calls == old(engine.calls) + Requests(action, old(selectedStudents), subject.id,
                                                             selectedLevel, selectedGroup)[..n]
      ensures var f := BulkFailure(engine.respond, |old(engine.calls)|, |old(selectedStudents)|);
              succeeded == f.None?
              && (f.None? ==> selectedStudents == []
                              && notification == Some(Done(action, |old(selectedStudents)|)))
              && (f.Some? ==> selectedStudents == old(selectedStudents)
                              && notification == Some(Error(FailureText(f.value, DefaultFailure(action)))))
      ensures !isProcessing
      ensures activeTab == old(activeTab) && searchQuery == old(searchQuery)
      ensures selectedLevel == old(selectedLevel) && selectedGroup == old(selectedGroup)
    {
      isProcessing := true;
      var failure := RunBulk(action, selectedStudents, subject.id, selectedLevel, selectedGroup);
      if failure.None? {
        notification := Some(Done(action, |selectedStudents|));
        selectedStudents := [];
      } else {
        notification := Some(Error(FailureText(failure.value, DefaultFailure(action))));
      }
      isProcessing := false;
      succeeded := failure.None?;
    }

    /** `handleEnrollStudents`. */
    method HandleEnrollStudents()
      modifies this, engine
      ensures selectedLevel == old(selectedLevel) && selectedGroup == old(selectedGroup)
      ensures searchQuery == old(searchQuery)
      ensures old(selectedLevel) == "" || old(selectedGroup) == "" || old(selectedStudents) == []
              ==> engine.calls == old(engine.calls) && notification == Some(Error(SelectTarget))
                  && selectedStudents == old(selectedStudents) && activeTab == old(activeTab)
                  && isProcessing == old(isProcessing)
      ensures old(selectedLevel) != "" && old(selectedGroup) != "" && old(selectedStudents) != []
              ==> var start := |old(engine.calls)|;
                  var ids := old(selectedStudents);
                  var f := BulkFailure(engine.respond, start, |ids|);
                  engine.calls == old(engine.calls)
                    + Requests(Enroll, ids, subject.id, selectedLevel,
                               selectedGroup)[..Attempted(engine.respond, start, |ids|)]
                  && !isProcessing
                  && (f.None? ==> selectedStudents == [] && notification == Some(Done(Enroll, |ids|))
                                  && activeTab == Enrolled)
                  && (f.Some? ==> selectedStudents == ids && activeTab == old(activeTab)
                                  && notification == Some(Error(FailureText(f.value, DefaultFailure(Enroll)))))
    {
      if selectedLevel == "" || selectedGroup == "" || |selectedStudents| == 0 {
        notification := Some(Error(SelectTarget));
        return;
      }
      var succeeded := Process(Enroll);
      if succeeded {
        activeTab := Enrolled;
      }
    }

    /** `handleRemoveStudents`; `confirmed` is the answer to the confirmation dialog. */
    method HandleRemoveStudents(confirmed: bool)
      modifies this, engine
      ensures selectedLevel == old(selectedLevel) && selectedGroup == old(selectedGroup)
      ensures searchQuery == old(searchQuery) && activeTab == old(activeTab)
      ensures old(selectedStudents) == []
              ==> engine.calls == old(engine.calls) && notification == Some(Error(SelectStudent))
                  && selectedStudents == old(selectedStudents) && isProcessing == old(isProcessing)
      ensures old(selectedStudents) != [] && !confirmed
              ==> engine.calls == old(engine.calls) && notification == old(notification)
                  && selectedStudents == old(selectedStudents) && isProcessing == old(isProcessing)
      ensures old(selectedStudents) != [] && confirmed
              ==> var start := |old(engine.calls)|;
                  var ids := old(selectedStudents);
                  var f := BulkFailure(engine.respond, start, |ids|);
                  engine.calls == old(engine.calls)
                    + Requests(Remove, ids, subject.id, selectedLevel,
                               selectedGroup)[..Attempted(engine.respond, start, |ids|)]
                  && !isProcessing
                  && (f.None? ==> selectedStudents == [] && notification == Some(Done(Remove, |ids|)))
                  && (f.Some? ==> selectedStudents == ids
                                  && notification == Some(Error(FailureText(f.value, DefaultFailure(Remove)))))
    {
      if |selectedStudents| == 0 {
        notification := Some(Error(SelectStudent));
        return;
      }
      if !confirmed {
        return;
      }
      var _ := Process(Remove);
    }

    /** `handleChangeLevelStudents`. */
    method HandleChangeLevelStudents()
      modifies this, engine
      ensures selectedLevel == old(selectedLevel) && selectedGroup == old(selectedGroup)
      ensures searchQuery == old(searchQuery) && activeTab == old(activeTab)
      ensures old(selectedLevel) == "" || old(selectedGroup) == "" || old(selectedStudents) == []
              ==> engine.calls == old(engine.calls) && notification == Some(Error(SelectTarget))
                  && selectedStudents == old(selectedStudents) && isProcessing == old(isProcessing)
      ensures old(selectedLevel) != "" && old(selectedGroup) != "" && old(selectedStudents) != []
              ==> var start := |old(engine.calls)|;
                  var ids := old(selectedStudents);
                  var f := BulkFailure(engine.respond, start, |ids|);
                  engine.calls == old(engine.calls)
                    + Requests(ChangeLevel, ids, subject.id, selectedLevel,
                               selectedGroup)[..Attempted(engine.respond, start, |ids|)]
                  && !isProcessing
                  && (f.None? ==> selectedStudents == [] && notification == Some(Done(ChangeLevel, |ids|)))
                  && (f.Some? ==> selectedStudents == ids
                                  && notification == Some(Error(FailureText(f.value, DefaultFailure(ChangeLevel)))))
    {
      if selectedLevel == "" || selectedGroup == "" || |selectedStudents| == 0 {
        notification := Some(Error(SelectTarget));
        return;
      }
      var _ := Process(ChangeLevel);
    }
  }
}
