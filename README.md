# Courses and subjects catalog (MWPanel 2.0)

A Dafny model of the catalog logic of MWPanel 2.0, a school-management panel. It covers four parts:

- **The in-memory catalog store** (`src/db.js`). It keeps a table of *cursos* (courses) and a table of *materias* (subjects), and applies these rules:
  - a new curso, or a curso whose name changes, is refused when another curso has that name, ignoring case;
  - a new materia, or a materia whose name changes, is refused when another materia of the same curso has that name, ignoring case;
  - a curso cannot be deleted while materias reference it;
  - updates merge fields into one record;
  - `syncNames` adds the names a UI knows about, counting what it created and what already existed.

  Names are checked only on creation and on a change of name, so the store does not keep them unique in every case:
  - extras whose `name` (or `cursoId`) differ from the checked argument override it in `addCurso` and `addMateria`;
  - a rename to the empty string skips the check, because `""` is falsy;
  - moving a materia to another curso without renaming it skips the check (`MoveDuplicatesName`).

  The store's methods therefore state uniqueness as kept only under conditions that exclude these cases.

  The model is the class `CatalogStore.CatalogDb`. It holds two sequences that its methods change in place.
- **The student enrollment panel of a subject** (`StudentEnrollmentPanel.tsx`):
  - the enrolled and available tabs;
  - the groups with room;
  - the selection of students;
  - three bulk handlers that call an enrollment operation once per selected student and stop at the first call that throws.

  The filters are functions. The panel's state is the class `EnrollmentPanel.Panel`.
- **The catalog page** (`CursosMateriasPage.tsx`):
  - the list filter (archived view, category, text search);
  - the statistics cards;
  - the create, edit, submit and archive handlers. These are the class `CatalogPage.Page`.
- **The subject sidebar** (`SubjectSidebar.tsx`): the sorted department choices and the subject filter.

Files:

| file | contents |
|---|---|
| `util.dfy` | Helpers: `Option`, the reply of an outside call, `filter`, `find` and `findIndex`, counting, duplicate freedom, and the order-preserving sub-list relation. |
| `text.dfy` | String helpers: `toLowerCase` on ASCII letters, `includes`, `trim`, and the default string order of `sort`. |
| `subjects.dfy` | The records of subjects, levels, groups, students and enrollments. |
| `catalog_store.dfy` | The store. |
| `enrollment_panel.dfy` | The panel. |
| `catalog_page.dfy` | The page. |
| `subject_sidebar.dfy` | The sidebar. |

The model takes these things outside the catalog as inputs:

- **Generated ids and time stamps.** They are parameters (`freshId`, `now`).
- **The enrollment engine and the catalog service.** Each is a class. It records the calls it receives and answers the k-th call with `respond(k)`: either it resolves, or it throws with a message. Every behaviour of the real service is some such function.
- **The answer to a confirmation dialog.** It is a `confirmed` parameter.

## Model

| member | source | states |
|---|---|---|
| CatalogStore.GetCurso | src/db.js:70-73 | Returns a curso exactly when some curso has that id. The result is the first curso with that id. Otherwise the result is None, which stands for `null`. |
| CatalogStore.MateriasByCurso | src/db.js:75-78 | The result holds exactly the stored materias with that `cursoId`, in stored order. |
| CatalogStore.FindCursoByName | src/db.js:90-95 | Finds a curso exactly when one has the name, ignoring case. The curso found is stored and has that name, ignoring case. |
| CatalogStore.FindMateriaByName | src/db.js:97-104 | Finds a materia exactly when one has the name, ignoring case, and is in the given curso (or no curso is given). The materia found is stored, has that name and belongs to that curso. |
| CatalogStore.FindCursoByNameIsFirst | src/db.js:92-94 | `Array.prototype.find` returns the first match: the curso found is at an index before which no curso has the name, ignoring case. |
| CatalogStore.FindMateriaByNameIsFirst | src/db.js:99-103 | The materia found is the first match: no materia before it has the name, ignoring case, in the given curso. |
| CatalogStore.CursoIndex | src/db.js:175 | The first index with that id; None (for -1) exactly when no curso has it. |
| CatalogStore.MateriaIndex | src/db.js:209 | The first index with that id; None exactly when no materia has it. |
| CatalogStore.NewCurso | src/db.js:120-126 | The new curso gets the generated id and the given name, unless `datosExtra` carries its own; the extras are copied. |
| CatalogStore.NewMateria | src/db.js:157-164 | The new materia gets the generated id, the curso and the name, unless `datosExtra` overrides them. |
| CatalogStore.RemoveAt | src/db.js:262 | `splice(index, 1)`: one element shorter, with every element before the index kept and every element after it shifted down. |
| CatalogStore.CursoRenameRefusedIff | src/db.js:183-192 | On a store with unique names and ids, a change of name is refused exactly when a different curso already has that name, ignoring case. |
| CatalogStore.CaseOnlyRenameAccepted | src/db.js:183-192 | On a store with unique names and ids, a rename that only changes the case of a curso's own name is never refused. Without those conditions it can be: with cursos `X` (id 1) and `x` (id 2), renaming curso 2 to `X` finds curso 1 first and is refused. |
| CatalogStore.CatalogDb.constructor | src/db.js:11 | The store starts with no cursos and no materias. |
| CatalogStore.CatalogDb.AddCurso | src/db.js:106-132 | A name already taken, ignoring case, is refused. The refusal carries the curso that has the name, and nothing changes. Otherwise exactly one new curso is appended. The new curso keeps the requested name, and name uniqueness is kept, when the extras carry no name or the same name. Id uniqueness is kept when the id is fresh. References stay valid. |
| CatalogStore.CatalogDb.AddMateria | src/db.js:134-170 | An unknown curso is refused with no change. A name already taken in that curso, ignoring case, is refused with the materia that has it. Otherwise exactly one materia is appended. Name uniqueness is kept when the extras carry no name and no curso, or the same ones. References are kept when the extras carry no curso or the same one. |
| CatalogStore.CatalogDb.UpdateCurso | src/db.js:172-204 | An unknown id is refused. A change to a name another curso has is refused. Either refusal leaves the store unchanged. Otherwise only the curso at the first index is replaced, by the old fields merged with `datos` and a new `updatedAt`. On a store whose curso names and ids are unique, name uniqueness is kept unless the new name is the empty string, which the check at line 184 lets through because it is falsy. |
| CatalogStore.CatalogDb.UpdateMateria | src/db.js:206-239 | The same as for cursos, with the name checked in `datos.cursoId` when it is truthy, and otherwise in the materia's own curso. On a store whose materia names and ids are unique, name uniqueness is kept when the new name is not the empty string (line 218 checks truthy names only) and the materia stays in its curso: `datos` carries no `cursoId` or the one the materia already has. References stay valid under the same curso condition. |
| CatalogStore.CatalogDb.DeleteCurso | src/db.js:241-266 | An unknown id is refused. A curso that materias reference is refused, with their number. Otherwise exactly that curso is removed. It succeeds exactly when the curso exists and no materia references it. Afterwards every materia still references a stored curso, and curso names stay unique. On a store whose curso ids are unique, `getCurso` then finds nothing; without that, a second curso with the same id (possible through `datosExtra.id`) is still found, since `splice` removes only the first. |
| CatalogStore.CatalogDb.DeleteMateria | src/db.js:268-284 | An unknown id is refused with no change. Otherwise exactly the materia at the first index with that id is removed. On a store whose materia ids are unique, no curso's list shows it any more. Name uniqueness and references are kept. |
| CatalogStore.CatalogDb.SyncNames | src/db.js:287-321 | `creados + existentes` equals the number of UI cursos, and every UI curso name is findable afterwards. `creadas + existentes` counts only the UI materias with a truthy `cursoId` and `name`. Every such materia whose curso exists is findable in it afterwards. The new lists are exactly `SyncedCursos` and `SyncedMaterias` of the old ones, so each appended record is the one `addCurso` or `addMateria` built for a UI entry not yet stored. When every UI entry is already stored, nothing is created and nothing changes. Name uniqueness is kept. When references were valid before, they still are, and the stored materias fall short of `creadas` by exactly the number of orphans: materias counted as created although `addMateria` refused them. |
| CatalogStore.CatalogDb.SyncCursos | src/db.js:296-304 | The curso loop: the cursos become `SyncedCursos` of the old ones, the counters add up to the number of UI cursos, and each UI name is findable afterwards. A UI curso already stored is counted as existing and appends nothing. Curso names stay unique. |
| CatalogStore.CatalogDb.SyncCurso | src/db.js:297-303 | One step of the curso loop. It counts as created exactly when the UI name is not found, ignoring case, and then appends exactly the record `addCurso` builds from the UI curso; otherwise nothing changes. |
| CatalogStore.CatalogDb.SyncMaterias | src/db.js:307-317 | The materia loop: the materias become `SyncedMaterias` of the old ones. Incomplete UI materias are skipped and counted nowhere. The stored list grows by `creadas` less the orphans, and each synced materia is findable in its curso. When every complete UI materia is stored, nothing is created. Materia names stay unique per curso. |
| CatalogStore.CatalogDb.SyncMateria | src/db.js:308-316 | One step of the materia loop. It counts as created exactly when the materia is complete and its name is not found in its curso. When its curso exists it appends exactly the record `addMateria` builds; otherwise nothing changes. |
| CatalogStore.SyncProgressStep | src/db.js:307-317 | One step of the materia loop keeps the loop invariant: the counters, the materias appended, the orphans counted, and the synced names. |
| CatalogStore.SyncProgressDone | src/db.js:307-317 | At the end of the loop, the invariant yields the totals `syncNames` reports. |
| CatalogStore.CountOrphans | src/db.js:308-313 | Counts the UI materias that are processed although their curso does not exist. It is positive exactly when there is one. |
| CatalogStore.CountComplete | src/db.js:308 | Counts the UI materias the loop processes; at most the number looked at. |
| CatalogStore.CountCompleteIsCount | src/db.js:308 | The running count of processed UI materias equals the count over the prefix seen so far. |
| CatalogStore.RenameKeepsNamesUnique | src/db.js:183-199 | An accepted curso update with a non-empty name keeps curso names unique. |
| CatalogStore.MateriaRenameKeepsNamesUnique | src/db.js:217-234 | An accepted update that keeps a materia in its curso (no `cursoId`, or its own) and does not rename it to the empty string keeps materia names unique per curso. |
| CatalogStore.RemoveKeepsReferences | src/db.js:252-262 | Removing a curso that no materia references keeps every reference valid. |
| CatalogStore.FoundStaysFound | src/db.js:296-304 | Appending cursos keeps every name that was findable findable. |
| CatalogStore.ReferencesGrow | src/db.js:296-304 | Appending cursos keeps every reference valid. |
| CatalogStore.SyncedCursos | src/db.js:296-304 | The cursos after the first n iterations of the curso loop. The old cursos stay as a prefix, and at most n are appended. |
| CatalogStore.SyncedMaterias | src/db.js:307-317 | The materias after the first n iterations of the materia loop. The old materias stay as a prefix, and at most n are appended. |
| CatalogStore.SyncedCursosStep | src/db.js:297-303 | One iteration of the curso loop, an `addCurso` call when the name is not found, extends the list as `SyncedCursos` does. |
| CatalogStore.SyncedMateriasStep | src/db.js:308-316 | One iteration of the materia loop extends the list as `SyncedMaterias` does. |
| CatalogStore.SyncedCursosFinds | src/db.js:296-304 | After the curso loop, each UI curso's name is findable, ignoring case. |
| CatalogStore.SyncedCursosFromUI | src/db.js:296-304 | Each curso the loop appends is `NewCurso(freshId(k), name, now, cursosUI[k])` for some UI curso k whose name was not stored before the loop. |
| CatalogStore.SyncedCursosAllStored | src/db.js:297-302 | When every UI curso's name is already stored, the curso loop appends nothing. |
| CatalogStore.SyncedCursosNamesUnique | src/db.js:296-304 | The curso loop keeps curso names unique, ignoring case. |
| CatalogStore.SyncedMateriasFromUI | src/db.js:307-317 | Each materia the loop appends is `NewMateria(freshId(first + k), cursoId, name, now, materiasUI[k])` for some complete UI materia k whose curso is stored and whose name was not stored in it before the loop. |
| CatalogStore.SyncedMateriasAllStored | src/db.js:308-315 | When every complete UI materia is already stored in its curso, the materia loop appends nothing. |
| CatalogStore.SyncedMateriasNamesUnique | src/db.js:307-317 | The materia loop keeps materia names unique per curso. |
| CatalogStore.CursoFoundGrows | src/db.js:92-94 | Appending to the cursos keeps a findable name findable. |
| CatalogStore.MateriaFoundGrows | src/db.js:99-103 | Appending to the materias keeps a findable materia findable in its curso. |
| CatalogStore.AppendCursoKeepsNamesUnique | src/db.js:110-128 | Appending a curso whose name is not found, as `addCurso` does, keeps curso names unique. |
| CatalogStore.AppendMateriaKeepsNamesUnique | src/db.js:147-166 | Appending a materia whose name is not found in its curso, as `addMateria` does, keeps materia names unique per curso. |
| CatalogStore.LifeCycle | src/tests/db.test.js:28-148 | The test's life cycle, without the archiving and renaming steps. After the materia is deleted, it is not listed. The curso can then be deleted, and `getCurso` no longer finds it. The model also tries to delete the curso while its materia exists and shows the refusal; the test itself never makes that call. |
| CatalogStore.OrphanMateriaCountedAsCreated | src/db.js:310-313 | A UI materia of an unknown curso is counted as created, and nothing is stored for it. |
| CatalogStore.TwoCursosSameMateria | src/db.js:134-170 | Two cursos can each hold a materia with the same name. |
| CatalogStore.MoveDuplicatesName | src/db.js:217-234 | Moving a materia into a curso with a same-named materia is accepted, because only a change of name is checked. The store is left with two same-named materias in one curso. |
| EnrollmentPanel.ActiveStudents | MWPanel2.0/src/features/cursosMaterias/components/StudentEnrollmentPanel.tsx:56 | Holds exactly the active users. |
| EnrollmentPanel.EnrolledIds | MWPanel2.0/src/features/cursosMaterias/components/StudentEnrollmentPanel.tsx:62 | The student id of each enrollment, in order. |
| EnrollmentPanel.FilteredStudents | MWPanel2.0/src/features/cursosMaterias/components/StudentEnrollmentPanel.tsx:65-75 | Holds exactly the active students that are enrolled (or not, for the available tab) and whose name or e-mail contains the search, ignoring case. |
| EnrollmentPanel.TabsPartition | MWPanel2.0/src/features/cursosMaterias/components/StudentEnrollmentPanel.tsx:56-75 | No student is on both tabs. Together the tabs hold exactly the active students matching the search, and their lengths add up to that list's. |
| EnrollmentPanel.TabIsSublist | MWPanel2.0/src/features/cursosMaterias/components/StudentEnrollmentPanel.tsx:56-75 | Each tab lists students in directory order. |
| EnrollmentPanel.AvailableGroups | MWPanel2.0/src/features/cursosMaterias/components/StudentEnrollmentPanel.tsx:78-80 | Holds exactly the groups of the chosen level with `currentStudents < maxStudents`, in their order. |
| EnrollmentPanel.ToggleSelection | MWPanel2.0/src/features/cursosMaterias/components/StudentEnrollmentPanel.tsx:176-182 | The id is in the result exactly when it was not selected. Every other id is unaffected. An unselected id is appended at the end. A selected one is removed with all its occurrences, the rest keep their order, and every other id keeps its number of occurrences. |
| EnrollmentPanel.ToggleKeepsNoDup | MWPanel2.0/src/features/cursosMaterias/components/StudentEnrollmentPanel.tsx:176-182 | A selection without duplicates stays without duplicates. |
| EnrollmentPanel.ToggleTwiceRestores | MWPanel2.0/src/features/cursosMaterias/components/StudentEnrollmentPanel.tsx:176-182 | Adding an absent id and toggling it again gives back the original list. |
| EnrollmentPanel.ToggleSelectAll | MWPanel2.0/src/features/cursosMaterias/components/StudentEnrollmentPanel.tsx:185-191 | A selection as long as the visible list is cleared, whatever ids it holds. Otherwise the selection becomes the visible ids, in order. |
| EnrollmentPanel.GetStudentEnrollment | MWPanel2.0/src/features/cursosMaterias/components/StudentEnrollmentPanel.tsx:194-196 | Finds an enrollment exactly when the student has one; it is the first. |
| EnrollmentPanel.GetLevelName | MWPanel2.0/src/features/cursosMaterias/components/StudentEnrollmentPanel.tsx:199-202 | The name of the first level with the id. 'Desconocido' when there is none, or when that name is empty. |
| EnrollmentPanel.GetGroupName | MWPanel2.0/src/features/cursosMaterias/components/StudentEnrollmentPanel.tsx:204-207 | The same lookup over the groups. |
| EnrollmentPanel.Requests | MWPanel2.0/src/features/cursosMaterias/components/StudentEnrollmentPanel.tsx:92-100 | One call per selected id, in selection order, with the handler's note. |
| EnrollmentPanel.Attempted | MWPanel2.0/src/features/cursosMaterias/components/StudentEnrollmentPanel.tsx:91-100 | The number of calls made is at most the number of ids, and at least one when there is an id. |
| EnrollmentPanel.AttemptedStopsAtThrow | MWPanel2.0/src/features/cursosMaterias/components/StudentEnrollmentPanel.tsx:91-107 | Every call before the last one made resolved. When the loop stops early, the last call made threw. |
| EnrollmentPanel.FailureIsLastAttempt | MWPanel2.0/src/features/cursosMaterias/components/StudentEnrollmentPanel.tsx:91-107 | No failure is reported exactly when no call throws, and then every call is made. A failure carries the message of the last call made. |
| EnrollmentPanel.StopsAtFirstThrow | MWPanel2.0/src/features/cursosMaterias/components/StudentEnrollmentPanel.tsx:91-107 | When call i is the first to throw, exactly i + 1 calls are made and its message is reported. |
| EnrollmentPanel.RunsToCompletion | MWPanel2.0/src/features/cursosMaterias/components/StudentEnrollmentPanel.tsx:92-104 | When no call throws, every call is made and no failure is reported. |
| EnrollmentPanel.Panel.constructor | MWPanel2.0/src/features/cursosMaterias/components/StudentEnrollmentPanel.tsx:28-34 | The initial state: the enrolled tab, no search, the subject's first level, no group, nothing selected, no banner, not processing. |
| EnrollmentPanel.Panel.SelectLevel | MWPanel2.0/src/features/cursosMaterias/components/StudentEnrollmentPanel.tsx:46-49 | Choosing a different level clears the chosen group, since the effect runs only when `selectedLevel` changes. Choosing the same level keeps the group. Nothing else changes. |
| EnrollmentPanel.Panel.ToggleStudent | MWPanel2.0/src/features/cursosMaterias/components/StudentEnrollmentPanel.tsx:176-182 | The selection becomes `ToggleSelection` of the old one; nothing else changes. |
| EnrollmentPanel.Panel.ToggleAll | MWPanel2.0/src/features/cursosMaterias/components/StudentEnrollmentPanel.tsx:185-191 | The selection becomes `ToggleSelectAll` over the students the current tab lists. |
| EnrollmentPanel.Panel.RunBulk | MWPanel2.0/src/features/cursosMaterias/components/StudentEnrollmentPanel.tsx:92-100 | The engine receives exactly the first `Attempted` requests, in selection order. The result is the message of the first call that threw, if any. |
| EnrollmentPanel.Panel.Process | MWPanel2.0/src/features/cursosMaterias/components/StudentEnrollmentPanel.tsx:89-110 | On success the selection is cleared and the count is reported. On a throw the selection is kept, and the message is shown (or the fallback text). `isProcessing` is false afterwards on every path. |
| EnrollmentPanel.Panel.HandleEnrollStudents | MWPanel2.0/src/features/cursosMaterias/components/StudentEnrollmentPanel.tsx:83-111 | With no level, no group or no selection, no call is made and the error banner is shown. Otherwise the bulk loop runs; on success it also switches to the enrolled tab. |
| EnrollmentPanel.Panel.HandleRemoveStudents | MWPanel2.0/src/features/cursosMaterias/components/StudentEnrollmentPanel.tsx:114-143 | With no selection, no call is made and the error banner is shown. When the dialog is declined, nothing changes. Otherwise the bulk loop runs with the removal call. |
| EnrollmentPanel.Panel.HandleChangeLevelStudents | MWPanel2.0/src/features/cursosMaterias/components/StudentEnrollmentPanel.tsx:146-173 | The same guard as for enrolling, then the bulk loop with the change-level call. The tab stays. |
| CatalogPage.FilteredData | src/features/cursosMaterias/CursosMateriasPage.tsx:185-203 | Holds exactly the items of the chosen view and category. With a non-empty query, it keeps only items whose name, non-null description or category contains the query, ignoring case. Order is preserved. |
| CatalogPage.EmptyQueryFiltersNoText | src/features/cursosMaterias/CursosMateriasPage.tsx:193-202 | With an empty query, the list is the view and category filter alone. |
| CatalogPage.ViewsPartition | src/features/cursosMaterias/CursosMateriasPage.tsx:185-203 | Every item passing the category and query filters is in exactly one of the active and archived views. |
| CatalogPage.Tally | src/features/cursosMaterias/CursosMateriasPage.tsx:210-213 | The map gains one entry per category, holding that category's count of non-archived items, and keeps every other entry. |
| CatalogPage.ComputeStats | src/features/cursosMaterias/CursosMateriasPage.tsx:206-214 | `total` is the number of items. `activos` counts the items that are not archived and `archivados` the archived ones, so together they make `total`. `porCategoria` has exactly the five categories, each with its count of non-archived items. |
| CatalogPage.SumIsActiveInCategories | src/features/cursosMaterias/CursosMateriasPage.tsx:210-213 | Over distinct categories, the counts add up to the non-archived items in one of them. |
| CatalogPage.CategoryCountsWithinActivos | src/features/cursosMaterias/CursosMateriasPage.tsx:206-213 | The five category counts add up to at most `activos`. |
| CatalogPage.FormOf | src/features/cursosMaterias/CursosMateriasPage.tsx:118-122 | The form copies the name and category. The description is the item's own, and it is empty exactly when the item's is null or empty. |
| CatalogPage.Page.constructor | src/features/cursosMaterias/CursosMateriasPage.tsx:33-51 | The page starts with no banner, the form closed, nothing being edited, not submitting, and the empty form. |
| CatalogPage.Page.HandleCreate | src/features/cursosMaterias/CursosMateriasPage.tsx:106-114 | Nothing is being edited, the form is empty with the first category, and it is shown. |
| CatalogPage.Page.HandleEdit | src/features/cursosMaterias/CursosMateriasPage.tsx:116-124 | The item is being edited, the form is `FormOf(item)`, and it is shown. |
| CatalogPage.Page.HandleSubmit | src/features/cursosMaterias/CursosMateriasPage.tsx:126-152 | A blank or white-space name makes no call and shows the error. Otherwise exactly one call is made: an update of the item being edited, or else a create. On success the form closes. On a throw the message is shown. Submitting ends on every path. |
| CatalogPage.Page.Save | src/features/cursosMaterias/CursosMateriasPage.tsx:134-151 | The `try` block with its `catch` and `finally`: one call, and the banner and form state that follow its reply. |
| CatalogPage.Page.HandleToggleArchive | src/features/cursosMaterias/CursosMateriasPage.tsx:168-182 | When declined, no call is made. Otherwise the service is asked for the negation of `archivado`, and the success or error banner follows. |
| CatalogPage.ToggleMovesBetweenViews | src/features/cursosMaterias/CursosMateriasPage.tsx:176-187 | Once the requested `archivado` is applied, an item listed in one view is listed in the other and not in its own. |
| CatalogPage.EditThenSave | src/features/cursosMaterias/CursosMateriasPage.tsx:116-143 | Editing an item and saving it unchanged sends one update carrying its fields, unless its name is blank. |
| CatalogPage.CreateThenSave | src/features/cursosMaterias/CursosMateriasPage.tsx:106-132 | Saving the empty form sends nothing and shows the name-required error. |
| SubjectSidebar.Distinct | MWPanel2.0/src/features/cursosMaterias/components/SubjectSidebar.tsx:29 | `[...new Set(s)]`: no duplicates, and exactly the elements of `s`. |
| SubjectSidebar.Departments | MWPanel2.0/src/features/cursosMaterias/components/SubjectSidebar.tsx:29 | The department of each subject, in order. |
| SubjectSidebar.DepartmentChoices | MWPanel2.0/src/features/cursosMaterias/components/SubjectSidebar.tsx:29 | Sorted, and a permutation of 'all' followed by the distinct departments. |
| SubjectSidebar.ChoicesAreDepartments | MWPanel2.0/src/features/cursosMaterias/components/SubjectSidebar.tsx:29 | The choices are 'all' and exactly the subjects' departments. |
| SubjectSidebar.ChoicesDistinctIff | MWPanel2.0/src/features/cursosMaterias/components/SubjectSidebar.tsx:29 | The choices have no repeated entry exactly when no department is itself named 'all'. |
| SubjectSidebar.DropdownOptions | MWPanel2.0/src/features/cursosMaterias/components/SubjectSidebar.tsx:86 | Every choice but 'all', in order. |
| SubjectSidebar.FilteredSubjects | MWPanel2.0/src/features/cursosMaterias/components/SubjectSidebar.tsx:32-41 | Holds exactly the subjects that pass the search (name or code, ignoring case, when the query is non-empty) and the department filter, in their order. |
| SubjectSidebar.NoFilterListsAll | MWPanel2.0/src/features/cursosMaterias/components/SubjectSidebar.tsx:32-41 | With an empty search and 'all', every subject is listed, in order. |

## Left out

- Persistence of the store. Loading and saving the JSON file, the save debounce, and the seeding of initial data (`loadDb`, `saveDb`, `saveDbNow`, `initDb`, src/db.js:18-62 and 323-382) are file I/O and timers. The store is modelled as two in-memory sequences.
- `getCursos`, `getMaterias` and `getMateria` (src/db.js:65-68, 80-88) return a list as it is, or find by id as `MateriaIndex` does; they have no rule of their own.
- Generated ids (`nanoid`) and `new Date().toISOString()` are parameters. Nothing checks that a generated id is fresh; the store's id-uniqueness postconditions assume it.
- Extra fields of a record are strings, numbers, booleans or null (`Value`). Nested objects are not modelled.
- The archiving steps of `src/tests/db.test.js` (`archiveMateria`, `unarchiveMateria`, `archived`, `archivedAt`) call functions that `src/db.js` does not define, so they are not modelled.
- CatalogStore.CatalogDb.SyncNames: requires every UI curso to carry a `name`. The source calls `toLowerCase` on it inside the `find` callback of `findCursoByName` (src/db.js:92-94). On a store with no cursos that callback never runs, so the nameless curso is stored; the throw comes at the next lookup that meets it.
- CatalogStore.CatalogDb.SyncNames: assumes every change is visible to the next call. In the source, every call starts with `loadDb` (src/db.js:18-28), which re-reads `db.json`, and `findCursoByName` (:91) and `getCurso` (:71) do so too. `saveDb` writes only after 5 seconds (:31-45). So with an existing `db.json`, a later iteration of the loops (:296-317) may re-read the file and lose what earlier iterations appended, until `saveDbNow` (:319). The `await`s also let concurrent calls interleave, so two concurrent `addCurso` calls with the same name can both succeed. The model runs each call to completion on one in-memory store.
- The enrollment engine (`enrollStudent`, `removeStudent`, `changeLevelStudent`, `getEnrollmentsBySubject`) and the user directory (`getUsersByRole`) are not part of this model. The engine is a call log with an arbitrary reply per call. The directory and the enrollments are parameters. No capacity bookkeeping is assumed.
- The bulk handlers follow the code: one `try` wraps the whole loop, so the first throw stops it. They are not best-effort per student.
- EnrollmentPanel.Notice: the success text is `Done(action, n)`, the action and the count the text reports, not the Spanish sentence. The page's banners keep their texts.
- The catalog service (`cursosMateriasService`), the Supabase client, the Express server and the other services are not part of this model. The page sees the service only as a call log with an arbitrary reply per call.
- The reload after a save or archive (`loadData`) is left out. It refetches the list, which is a parameter of the filters here.
- `handleDelete` (src/features/cursosMaterias/CursosMateriasPage.tsx:154-166) is left out, since it only forwards to the service.
- JSX rendering, notification auto-dismiss timers and `ConfirmationModal` are left out. `window.confirm` is the `confirmed` parameter.
- The attendance colour bands and `Math.round` in the panel are floating-point display and are left out.
- `toLowerCase` is modelled on ASCII letters only. The default `sort` is modelled as lexicographic order on characters. Unicode case mapping is not modelled, and neither is UTF-16 ordering beyond the Basic Multilingual Plane.
