/** The in-memory catalog store of `src/db.js`: a table of cursos (courses)
    and a table of materias (subjects), held as two lists that the store's
    operations change in place. Persistence, ids and clocks are outside the
    model: a generated id and the current time stamp are parameters. */
module CatalogStore {
  import opened Util
  import opened Text

  /** A field value the store does not interpret (`description`, `isActive`, ...). */
  datatype Value = Str(s: string) | Num(n: int) | Bool(b: bool) | Nil

  /** A stored curso. `extra` holds every field other than the named ones. */
  datatype Curso = Curso(id: string, name: string, createdAt: string, updatedAt: string,
                         extra: map<string, Value>)

  /** A stored materia; `cursoId` is the id of the curso it belongs to. */
  datatype Materia = Materia(id: string, cursoId: string, name: string, createdAt: string,
                             updatedAt: string, extra: map<string, Value>)

  /** An object passed as `datosExtra` or `datos`: each named field it does not carry is None. */
  datatype CursoFields = CursoFields(id: Option<string>, name: Option<string>,
                                     createdAt: Option<string>, updatedAt: Option<string>,
                                     extra: map<string, Value>)

  datatype MateriaFields = MateriaFields(id: Option<string>, cursoId: Option<string>,
                                         name: Option<string>, createdAt: Option<string>,
                                         updatedAt: Option<string>, extra: map<string, Value>)

  /** An empty `datosExtra` / `datos` object. */
  const NoCursoFields := CursoFields(None, None, None, None, map[])
  const NoMateriaFields := MateriaFields(None, None, None, None, None, map[])

  /** Why an operation returned `success: false`, one kind per message of the store. */
  datatype Failure =
    | CursoExists          // 'Ya existe un curso con ese nombre'
    | OtherCursoNamed      // 'Ya existe otro curso con ese nombre'
    | UnknownCurso(id: string)
    | MateriaExists        // 'Ya existe una materia con ese nombre en este curso'
    | OtherMateriaNamed    // 'Ya existe otra materia con ese nombre en este curso'
    | UnknownMateria(id: string)
    | CursoHasMaterias(count: nat)

  /** The `{ success, curso | materia, message }` objects the store returns. */
  datatype Outcome<T> = Success(value: T) | Fail(failure: Failure, existing: Option<T>)

  /** The `resultados` of `syncNames`. */
  datatype SyncCounts = SyncCounts(cursosCreados: nat, cursosExistentes: nat,
                                   materiasCreadas: nat, materiasExistentes: nat)

  /** A JavaScript truthiness test on an optional string field: present and non-empty. */
  predicate Truthy(f: Option<string>) {
    f.Some? && f.value != ""
  }

  /** A UI materia that `syncNames` processes: both `cursoId` and `name` are truthy. */
  predicate IsComplete(m: MateriaFields) {
    Truthy(m.cursoId) && Truthy(m.name)
  }

  /** A UI materia that `syncNames` processes although its curso is not stored. */
  predicate IsOrphan(cursos: seq<Curso>, m: MateriaFields) {
    IsComplete(m) && !HasCurso(cursos, m.cursoId.value)
  }

  /** The number of the first `n` UI materias that `syncNames` processes although their
      curso is not stored. */
  function CountOrphans(cursos: seq<Curso>, ui: seq<MateriaFields>, n: nat): (r: nat)
    requires n <= |ui|
    ensures r <= n
    ensures r > 0 <==> exists k :: 0 <= k < n && IsOrphan(cursos, ui[k])
  {
    if n == 0 then 0
    else CountOrphans(cursos, ui, n - 1) + (if IsOrphan(cursos, ui[n - 1]) then 1 else 0)
  }

  /** The number of the first `n` UI materias that `syncNames` processes. */
  function CountComplete(ui: seq<MateriaFields>, n: nat): (r: nat)
    requires n <= |ui|
    ensures r <= n
  {
    if n == 0 then 0
    else CountComplete(ui, n - 1) + (if IsComplete(ui[n - 1]) then 1 else 0)
  }

  /** Each of the first `n` UI materias that is processed names a stored curso. */
  predicate AllCursosKnown(cursos: seq<Curso>, ui: seq<MateriaFields>, n: nat)
    requires n <= |ui|
  {
    forall k :: 0 <= k < n && IsComplete(ui[k]) ==> HasCurso(cursos, ui[k].cursoId.value)
  }

  /** Each of the first `n` UI materias that is processed and whose curso is stored has a
      materia of its name, ignoring case, in that curso. */
  predicate AllSynced(cursos: seq<Curso>, materias: seq<Materia>, ui: seq<MateriaFields>, n: nat)
    requires n <= |ui|
  {
    forall k :: 0 <= k < n && IsComplete(ui[k]) && HasCurso(cursos, ui[k].cursoId.value)
      ==> FindMateriaByName(materias, ui[k].name.value, Some(ui[k].cursoId.value)).Some?
  }

  /** `{ ...c, ...f }`: every field that `f` carries replaces the one of `c`. */
  function MergeCurso(c: Curso, f: CursoFields): Curso {
    Curso(f.id.GetOr(c.id), f.name.GetOr(c.name), f.createdAt.GetOr(c.createdAt),
          f.updatedAt.GetOr(c.updatedAt), c.extra + f.extra)
  }

  /** `datos` leaves the materia with id `id` in its curso: it carries no `cursoId`, or the
      one the materia already has, as the edit form sends. */
  predicate StaysInCurso(materias: seq<Materia>, id: string, datos: MateriaFields) {
    datos.cursoId.None?
    || (MateriaIndex(materias, id).Some?
        && datos.cursoId == Some(materias[MateriaIndex(materias, id).value].cursoId))
  }

  function MergeMateria(m: Materia, f: MateriaFields): Materia {
    Materia(f.id.GetOr(m.id), f.cursoId.GetOr(m.cursoId), f.name.GetOr(m.name),
            f.createdAt.GetOr(m.createdAt), f.updatedAt.GetOr(m.updatedAt), m.extra + f.extra)
  }

  /** The record `addCurso` builds: id, name and stamps first, then `...datosExtra` over them. */
  function NewCurso(id: string, nombre: string, now: string, datosExtra: CursoFields): (c: Curso)
    ensures datosExtra.id.None? ==> c.id == id
    ensures datosExtra.name.None? || datosExtra.name == Some(nombre) ==> c.name == nombre
    ensures c.extra == datosExtra.extra
  {
    MergeCurso(Curso(id, nombre, now, now, map[]), datosExtra)
  }

  function NewMateria(id: string, cursoId: string, nombre: string, now: string,
                      datosExtra: MateriaFields): (m: Materia)
    ensures datosExtra.id.None? ==> m.id == id
    ensures datosExtra.cursoId.None? || datosExtra.cursoId == Some(cursoId) ==> m.cursoId == cursoId
    ensures datosExtra.name.None? || datosExtra.name == Some(nombre) ==> m.name == nombre
    ensures m.extra == datosExtra.extra
  {
    MergeMateria(Materia(id, cursoId, nombre, now, now, map[]), datosExtra)
  }

  // ---------------------------------------------------------------------------
  // Readers (`find`, `findIndex` and `filter` over the two lists)

  function CursoIndex(cursos: seq<Curso>, id: string): (r: Option<nat>)
    ensures r.Some? ==> r.value < |cursos| && cursos[r.value].id == id
    ensures r.Some? ==> forall j :: 0 <= j < r.value ==> cursos[j].id != id
    ensures r.None? <==> forall j :: 0 <= j < |cursos| ==> cursos[j].id != id
  {
    FindIndex(cursos, (c: Curso) => c.id == id)
  }

  function MateriaIndex(materias: seq<Materia>, id: string): (r: Option<nat>)
    ensures r.Some? ==> r.value < |materias| && materias[r.value].id == id
    ensures r.Some? ==> forall j :: 0 <= j < r.value ==> materias[j].id != id
    ensures r.None? <==> forall j :: 0 <= j < |materias| ==> materias[j].id != id
  {
    FindIndex(materias, (m: Materia) => m.id == id)
  }

  /** `getCurso`: the first curso with that id, or None for `null`. */
  function GetCurso(cursos: seq<Curso>, id: string): (r: Option<Curso>)
    ensures r.Some? <==> exists i :: 0 <= i < |cursos| && cursos[i].id == id
    ensures r.Some? ==> r.value in cursos && r.value.id == id
    ensures r.Some? ==> r.value == cursos[CursoIndex(cursos, id).value]
  {
    match CursoIndex(cursos, id)
    case None => None
    case Some(i) => Some(cursos[i])
  }

  predicate HasCurso(cursos: seq<Curso>, id: string) {
    exists i :: 0 <= i < |cursos| && cursos[i].id == id
  }

  /** `getMateriasByCurso`: the materias of a curso, in stored order. */
  function MateriasByCurso(materias: seq<Materia>, cursoId: string): (r: seq<Materia>)
    ensures forall m :: m in r <==> m in materias && m.cursoId == cursoId
    ensures IsSublist(r, materias)
  {
    FilterIsSublist(materias, (m: Materia) => m.cursoId == cursoId);
    FilterMembers(materias, (m: Materia) => m.cursoId == cursoId);
    Filter(materias, (m: Materia) => m.cursoId == cursoId)
  }

  /** `findCursoByName`: `cursos.find`, the first curso whose name equals `nombre` ignoring
      case. */
  function FindCursoByName(cursos: seq<Curso>, nombre: string): (r: Option<Curso>)
    ensures r.Some? <==> exists i :: 0 <= i < |cursos| && SameIgnoringCase(cursos[i].name, nombre)
    ensures r.Some? ==> r.value in cursos && SameIgnoringCase(r.value.name, nombre)
  {
    if cursos == [] then None
    else if SameIgnoringCase(cursos[0].name, nombre) then Some(cursos[0])
    else
      var r := FindCursoByName(cursos[1..], nombre);
      assert forall i :: 1 <= i < |cursos| ==> cursos[i] == cursos[1..][i - 1];
      r
  }

  /** The curso `findCursoByName` returns is the first with the name: no curso before it has
      the name, ignoring case. */
  lemma {:induction false} FindCursoByNameIsFirst(cursos: seq<Curso>, nombre: string)
    ensures var r := FindCursoByName(cursos, nombre);
      r.Some? ==> exists i :: 0 <= i < |cursos| && cursos[i] == r.value
                              && forall j :: 0 <= j < i ==> !SameIgnoringCase(cursos[j].name, nombre)
  {
    if cursos != [] && !SameIgnoringCase(cursos[0].name, nombre) {
      var tail := cursos[1..];
      FindCursoByNameIsFirst(tail, nombre);
      if FindCursoByName(tail, nombre).Some? {
        var i :| 0 <= i < |tail| && tail[i] == FindCursoByName(tail, nombre).value
                 && forall j :: 0 <= j < i ==> !SameIgnoringCase(tail[j].name, nombre);
        assert cursos[i + 1] == tail[i];
        assert forall j :: 1 <= j < i + 1 ==> cursos[j] == tail[j - 1];
      }
    }
  }

  /** `findMateriaByName`: `materias.find`, the first materia named `nombre` ignoring case, within the
      curso `cursoId` when one is given (`cursoId === null` searches all cursos). */
  function FindMateriaByName(materias: seq<Materia>, nombre: string, cursoId: Option<string>)
    : (r: Option<Materia>)
    ensures r.Some? <==> exists i :: 0 <= i < |materias| && SameIgnoringCase(materias[i].name, nombre)
                                     && (cursoId.None? || materias[i].cursoId == cursoId.value)
    ensures r.Some? ==> r.value in materias && SameIgnoringCase(r.value.name, nombre)
    ensures r.Some? && cursoId.Some? ==> r.value.cursoId == cursoId.value
  {
    if materias == [] then None
    else if SameIgnoringCase(materias[0].name, nombre)
            && (cursoId.None? || materias[0].cursoId == cursoId.value) then Some(materias[0])
    else
      var r := FindMateriaByName(materias[1..], nombre, cursoId);
      assert forall i :: 1 <= i < |materias| ==> materias[i] == materias[1..][i - 1];
      r
  }

  /** The materia `findMateriaByName` returns is the first that has the name, ignoring case,
      in the given curso (in any curso when none is given). */
  lemma {:induction false} FindMateriaByNameIsFirst(materias: seq<Materia>, nombre: string, cursoId: Option<string>)
    ensures var r := FindMateriaByName(materias, nombre, cursoId);
      r.Some? ==> exists i :: 0 <= i < |materias| && materias[i] == r.value
                              && forall j :: 0 <= j < i ==> !(SameIgnoringCase(materias[j].name, nombre)
                                                              && (cursoId.None? || materias[j].cursoId == cursoId.value))
  {
    if materias != [] && !(SameIgnoringCase(materias[0].name, nombre)
                           && (cursoId.None? || materias[0].cursoId == cursoId.value)) {
      var tail := materias[1..];
      FindMateriaByNameIsFirst(tail, nombre, cursoId);
      if FindMateriaByName(tail, nombre, cursoId).Some? {
        var i :| 0 <= i < |tail| && tail[i] == FindMateriaByName(tail, nombre, cursoId).value
                 && forall j :: 0 <= j < i ==> !(SameIgnoringCase(tail[j].name, nombre)
                                                && (cursoId.None? || tail[j].cursoId == cursoId.value));
        assert materias[i + 1] == tail[i];
        assert forall j :: 1 <= j < i + 1 ==> materias[j] == tail[j - 1];
      }
    }
  }

  // ---------------------------------------------------------------------------
  // The catalog rules, as predicates on the two lists

  /** No two cursos have names that are equal ignoring case. */
  predicate CursoNamesUnique(cursos: seq<Curso>) {
    forall i, j :: 0 <= i < j < |cursos| ==> !SameIgnoringCase(cursos[i].name, cursos[j].name)
  }

  /** No two materias of one curso have names that are equal ignoring case. */
  predicate MateriaNamesUnique(materias: seq<Materia>) {
    forall i, j :: 0 <= i < j < |materias| && materias[i].cursoId == materias[j].cursoId
      ==> !SameIgnoringCase(materias[i].name, materias[j].name)
  }

  /** Every materia references an existing curso. */
  predicate MateriasReferenceCursos(cursos: seq<Curso>, materias: seq<Materia>) {
    forall k :: 0 <= k < |materias| ==> HasCurso(cursos, materias[k].cursoId)
  }

  predicate CursoIdsUnique(cursos: seq<Curso>) {
    forall i, j :: 0 <= i < j < |cursos| ==> cursos[i].id != cursos[j].id
  }

  predicate MateriaIdsUnique(materias: seq<Materia>) {
    forall i, j :: 0 <= i < j < |materias| ==> materias[i].id != materias[j].id
  }

  /** `splice(index, 1)`. */
  function RemoveAt<T>(s: seq<T>, index: nat): (r: seq<T>)
    requires index < |s|
    ensures |r| == |s| - 1
    ensures forall k :: 0 <= k < index ==> r[k] == s[k]
    ensures forall k :: index <= k < |r| ==> r[k] == s[k + 1]
  {
    s[..index] + s[index + 1..]
  }

  /** Whether `updateCurso` refuses to rename the curso at `index` to `datos.name`: the rename
      is checked only when the new name is non-empty and differs from the stored one, and it
      is refused when the first curso with that name, ignoring case, has another id. */
  predicate CursoRenameRefused(cursos: seq<Curso>, index: nat, id: string, datos: CursoFields)
    requires index < |cursos|
  {
    Truthy(datos.name) && datos.name.value != cursos[index].name
    && var existing := FindCursoByName(cursos, datos.name.value);
       existing.Some? && existing.value.id != id
  }

  /** The materia counterpart: the name is looked up in `datos.cursoId` when that is truthy,
      else in the materia's current curso. */
  predicate MateriaRenameRefused(materias: seq<Materia>, index: nat, id: string,
                                 datos: MateriaFields)
    requires index < |materias|
  {
    Truthy(datos.name) && datos.name.value != materias[index].name
    && var scope := if Truthy(datos.cursoId) then datos.cursoId.value else materias[index].cursoId;
       var existing := FindMateriaByName(materias, datos.name.value, Some(scope));
       existing.Some? && existing.value.id != id
  }

  /** A rename is refused exactly when a DIFFERENT curso already has the name, ignoring case,
      provided names and ids are unique. */
  lemma {:induction false} CursoRenameRefusedIff(cursos: seq<Curso>, index: nat, datos: CursoFields)
    requires index < |cursos| && CursoNamesUnique(cursos) && CursoIdsUnique(cursos)
    requires Truthy(datos.name) && datos.name.value != cursos[index].name
    ensures CursoRenameRefused(cursos, index, cursos[index].id, datos)
        <==> exists j :: 0 <= j < |cursos| && j != index
                         && SameIgnoringCase(cursos[j].name, datos.name.value)
  {
    var n := datos.name.value;
    var existing := FindCursoByName(cursos, n);
    if j :| 0 <= j < |cursos| && j != index && SameIgnoringCase(cursos[j].name, n) {
      forall i | 0 <= i < |cursos| && i != j ensures !SameIgnoringCase(cursos[i].name, n) {
        assert !SameIgnoringCase(cursos[i].name, cursos[j].name);
      }
    }
  }

  /** A case-only rename of a curso's own name is never refused. */
  lemma {:induction false} CaseOnlyRenameAccepted(cursos: seq<Curso>, index: nat, datos: CursoFields)
    requires index < |cursos| && CursoNamesUnique(cursos) && CursoIdsUnique(cursos)
    requires datos.name.Some? && SameIgnoringCase(datos.name.value, cursos[index].name)
    ensures !CursoRenameRefused(cursos, index, cursos[index].id, datos)
  {
    var n := datos.name.value;
    if Truthy(datos.name) && n != cursos[index].name {
      CursoRenameRefusedIff(cursos, index, datos);
      forall j | 0 <= j < |cursos| && j != index ensures !SameIgnoringCase(cursos[j].name, n) {
        assert !SameIgnoringCase(cursos[j].name, cursos[index].name);
      }
    }
  }

  // ---------------------------------------------------------------------------
  // The store

  class CatalogDb {
    var cursos: seq<Curso>
    var materias: seq<Materia>

    /** The initial state `{ cursos: [], materias: [] }`. */
    constructor ()
      ensures cursos == [] && materias == []
    {
      cursos := [];
      materias := [];
    }

    /** `addCurso`: refuses a name already taken ignoring case, returning the curso that has
        it; otherwise appends the new curso and returns it. */
    method AddCurso(nombre: string, datosExtra: CursoFields, freshId: string, now: string)
      returns (r: Outcome<Curso>)
      modifies this
      ensures materias == old(materias)
      ensures var existing := FindCursoByName(old(cursos), nombre);
        if existing.Some? then r == Fail(CursoExists, existing) && cursos == old(cursos)
        else r == Success(NewCurso(freshId, nombre, now, datosExtra)) && cursos == old(cursos) + [r.value]
      ensures r.Success? && (datosExtra.name.None? || datosExtra.name == Some(nombre)) ==> r.value.name == nombre
      ensures old(CursoNamesUnique(cursos)) && (datosExtra.name.None? || datosExtra.name == Some(nombre))
        ==> CursoNamesUnique(cursos)
      ensures old(CursoIdsUnique(cursos)) && datosExtra.id.None? && !HasCurso(old(cursos), freshId)
        ==> CursoIdsUnique(cursos)
      ensures old(MateriasReferenceCursos(cursos, materias)) ==> MateriasReferenceCursos(cursos, materias)
    {
      var existing := FindCursoByName(cursos, nombre);
      if existing.Some? {
        return Fail(CursoExists, existing);
      }
      var nuevo := NewCurso(freshId, nombre, now, datosExtra);
      cursos := cursos + [nuevo];
      r := Success(nuevo);
      assert forall k :: 0 <= k < |old(cursos)| ==> cursos[k] == old(cursos)[k];
    }

    /** `addMateria`: refuses an unknown curso and a name already taken, ignoring case, within
        that curso (returning the materia that has it); otherwise appends the new materia. */
    method AddMateria(cursoId: string, nombre: string, datosExtra: MateriaFields, freshId: string,
                      now: string)
      returns (r: Outcome<Materia>)
      modifies this
      ensures cursos == old(cursos)
      ensures !HasCurso(cursos, cursoId) ==> r == Fail(UnknownCurso(cursoId), None) && materias == old(materias)
      ensures HasCurso(cursos, cursoId) ==>
        var existing := FindMateriaByName(old(materias), nombre, Some(cursoId));
        if existing.Some? then r == Fail(MateriaExists, existing) && materias == old(materias)
        else r == Success(NewMateria(freshId, cursoId, nombre, now, datosExtra))
             && materias == old(materias) + [r.value]
      ensures r.Success? && (datosExtra.name.None? || datosExtra.name == Some(nombre)) ==> r.value.name == nombre
      ensures old(MateriaNamesUnique(materias))
              && (datosExtra.name.None? || datosExtra.name == Some(nombre))
              && (datosExtra.cursoId.None? || datosExtra.cursoId == Some(cursoId))
        ==> MateriaNamesUnique(materias)
      ensures old(MateriasReferenceCursos(cursos, materias))
              && (datosExtra.cursoId.None? || datosExtra.cursoId == Some(cursoId))
        ==> MateriasReferenceCursos(cursos, materias)
    {
      var curso := GetCurso(cursos, cursoId);
      if curso.None? {
        return Fail(UnknownCurso(cursoId), None);
      }
      var existing := FindMateriaByName(materias, nombre, Some(cursoId));
      if existing.Some? {
        return Fail(MateriaExists, existing);
      }
      var nueva := NewMateria(freshId, cursoId, nombre, now, datosExtra);
      materias := materias + [nueva];
      r := Success(nueva);
      assert forall k :: 0 <= k < |old(materias)| ==> materias[k] == old(materias)[k];
    }

    /** `updateCurso`: refuses an unknown id and a rename onto another curso's name; otherwise
        merges `datos` into the curso at the first index with that id and refreshes `updatedAt`. */
    method UpdateCurso(id: string, datos: CursoFields, now: string) returns (r: Outcome<Curso>)
      modifies this
      ensures materias == old(materias)
      ensures CursoIndex(old(cursos), id).None? ==> r == Fail(UnknownCurso(id), None)
      ensures CursoIndex(old(cursos), id).Some? ==>
        var i := CursoIndex(old(cursos), id).value;
        if CursoRenameRefused(old(cursos), i, id, datos) then r == Fail(OtherCursoNamed, None)
        else r == Success(MergeCurso(old(cursos)[i], datos).(updatedAt := now))
             && cursos == old(cursos)[i := r.value]
      ensures r.Fail? ==> cursos == old(cursos)
      ensures old(CursoNamesUnique(cursos)) && old(CursoIdsUnique(cursos)) && datos.name != Some("")
        ==> CursoNamesUnique(cursos)
      ensures old(MateriasReferenceCursos(cursos, materias)) && datos.id.None?
        ==> MateriasReferenceCursos(cursos, materias)
    {
      var index := CursoIndex(cursos, id);
      if index.None? {
        return Fail(UnknownCurso(id), None);
      }
      var i := index.value;
      if CursoRenameRefused(cursos, i, id, datos) {
        return Fail(OtherCursoNamed, None);
      }
      var updated := MergeCurso(cursos[i], datos).(updatedAt := now);
      cursos := cursos[i := updated];
      r := Success(updated);
      if CursoNamesUnique(old(cursos)) && CursoIdsUnique(old(cursos)) && datos.name != Some("") {
        RenameKeepsNamesUnique(old(cursos), i, datos, updated);
      }
      assert forall k :: 0 <= k < |cursos| ==> cursos[k].id == old(cursos)[k].id || k == i;
    }

    /** `updateMateria`: as `updateCurso`, with the name checked within the target curso. */
    method UpdateMateria(id: string, datos: MateriaFields, now: string) returns (r: Outcome<Materia>)
      modifies this
      ensures cursos == old(cursos)
      ensures MateriaIndex(old(materias), id).None? ==> r == Fail(UnknownMateria(id), None)
      ensures MateriaIndex(old(materias), id).Some? ==>
        var i := MateriaIndex(old(materias), id).value;
        if MateriaRenameRefused(old(materias), i, id, datos) then r == Fail(OtherMateriaNamed, None)
        else r == Success(MergeMateria(old(materias)[i], datos).(updatedAt := now))
             && materias == old(materias)[i := r.value]
      ensures r.Fail? ==> materias == old(materias)
      ensures old(MateriaNamesUnique(materias)) && old(MateriaIdsUnique(materias))
              && datos.name != Some("") && old(StaysInCurso(materias, id, datos))
        ==> MateriaNamesUnique(materias)
      ensures old(MateriasReferenceCursos(cursos, materias)) && old(StaysInCurso(materias, id, datos))
        ==> MateriasReferenceCursos(cursos, materias)
    {
      var index := MateriaIndex(materias, id);
      if index.None? {
        return Fail(UnknownMateria(id), None);
      }
      var i := index.value;
      if MateriaRenameRefused(materias, i, id, datos) {
        return Fail(OtherMateriaNamed, None);
      }
      var updated := MergeMateria(materias[i], datos).(updatedAt := now);
      materias := materias[i := updated];
      r := Success(updated);
      if MateriaNamesUnique(old(materias)) && MateriaIdsUnique(old(materias))
         && datos.name != Some("") && StaysInCurso(old(materias), id, datos) {
        MateriaRenameKeepsNamesUnique(old(materias), i, datos, updated);
      }
      assert forall k :: 0 <= k < |materias| ==> materias[k].cursoId == old(materias)[k].cursoId || k == i;
    }

    /** `deleteCurso`: refuses an unknown id and a curso that materias still reference;
        otherwise removes the curso at the first index with that id. */
    method DeleteCurso(id: string) returns (r: Outcome<()>)
      modifies this
      ensures materias == old(materias)
      ensures CursoIndex(old(cursos), id).None? ==> r == Fail(UnknownCurso(id), None)
      ensures CursoIndex(old(cursos), id).Some? ==>
        var asociadas := Count(materias, (m: Materia) => m.cursoId == id);
        if asociadas > 0 then r == Fail(CursoHasMaterias(asociadas), None)
        else r == Success(()) && cursos == RemoveAt(old(cursos), CursoIndex(old(cursos), id).value)
      ensures r.Success? <==> HasCurso(old(cursos), id) && forall m :: m in materias ==> m.cursoId != id
      ensures r.Fail? ==> cursos == old(cursos)
      ensures r.Success? && old(CursoIdsUnique(cursos)) ==> GetCurso(cursos, id).None?
      ensures old(CursoNamesUnique(cursos)) ==> CursoNamesUnique(cursos)
      ensures old(MateriasReferenceCursos(cursos, materias)) ==> MateriasReferenceCursos(cursos, materias)
    {
      var index := CursoIndex(cursos, id);
      if index.None? {
        return Fail(UnknownCurso(id), None);
      }
      var asociadas := Count(materias, (m: Materia) => m.cursoId == id);
      if asociadas > 0 {
        return Fail(CursoHasMaterias(asociadas), None);
      }
      cursos := RemoveAt(cursos, index.value);
      r := Success(());
      assert forall k :: 0 <= k < |cursos| ==> cursos[k] == old(cursos)[if k < index.value then k else k + 1];
      if MateriasReferenceCursos(old(cursos), materias) {
        RemoveKeepsReferences(old(cursos), index.value, materias, id);
      }
    }

    /** `deleteMateria`: refuses an unknown id; otherwise removes the materia at the first index
        with that id. */
    method DeleteMateria(id: string) returns (r: Outcome<()>)
      modifies this
      ensures cursos == old(cursos)
      ensures MateriaIndex(old(materias), id).None? ==> r == Fail(UnknownMateria(id), None) && materias == old(materias)
      ensures MateriaIndex(old(materias), id).Some? ==>
        r == Success(()) && materias == RemoveAt(old(materias), MateriaIndex(old(materias), id).value)
      ensures r.Success? && old(MateriaIdsUnique(materias)) ==>
        forall c :: forall m :: m in MateriasByCurso(materias, c) ==> m.id != id
      ensures old(MateriaNamesUnique(materias)) ==> MateriaNamesUnique(materias)
      ensures old(MateriasReferenceCursos(cursos, materias)) ==> MateriasReferenceCursos(cursos, materias)
    {
      var index := MateriaIndex(materias, id);
      if index.None? {
        return Fail(UnknownMateria(id), None);
      }
      materias := RemoveAt(materias, index.value);
      r := Success(());
      assert forall k :: 0 <= k < |materias| ==> materias[k] == old(materias)[if k < index.value then k else k + 1];
    }

    /** `syncNames`: adds every UI curso whose name is not yet stored (ignoring case) and every
        UI materia whose name is not yet stored in its curso, counting created versus existing.
        `freshId(k)` is the id generated for the k-th UI record (cursos first). */
    method SyncNames(cursosUI: seq<CursoFields>, materiasUI: seq<MateriaFields>,
                     freshId: nat -> string, now: string)
      returns (res: SyncCounts)
      requires forall k :: 0 <= k < |cursosUI| ==> cursosUI[k].name.Some?
      modifies this
      ensures cursos == SyncedCursos(old(cursos), cursosUI, |cursosUI|, freshId, now)
      ensures materias == SyncedMaterias(cursos, old(materias), materiasUI, |materiasUI|, freshId,
                                         |cursosUI|, now)
      ensures res.cursosCreados + res.cursosExistentes == |cursosUI|
      ensures |cursos| == |old(cursos)| + res.cursosCreados && cursos[..|old(cursos)|] == old(cursos)
      ensures forall k :: 0 <= k < |cursosUI| ==> FindCursoByName(cursos, cursosUI[k].name.value).Some?
      ensures CursosStored(old(cursos), cursosUI) ==> res.cursosCreados == 0 && cursos == old(cursos)
      ensures old(CursoNamesUnique(cursos)) ==> CursoNamesUnique(cursos)
      ensures res.materiasCreadas + res.materiasExistentes == Count(materiasUI, IsComplete)
      ensures |old(materias)| <= |materias| <= |old(materias)| + res.materiasCreadas
      ensures materias[..|old(materias)|] == old(materias)
      ensures AllCursosKnown(cursos, materiasUI, |materiasUI|)
        ==> |materias| == |old(materias)| + res.materiasCreadas
      ensures AllSynced(cursos, materias, materiasUI, |materiasUI|)
      ensures MateriasStored(old(materias), materiasUI) ==> res.materiasCreadas == 0 && materias == old(materias)
      ensures old(MateriaNamesUnique(materias)) ==> MateriaNamesUnique(materias)
      ensures MateriasReferenceCursos(old(cursos), old(materias)) ==>
                MateriasReferenceCursos(cursos, materias)
                && |materias| + CountOrphans(cursos, materiasUI, |materiasUI|)
                   == |old(materias)| + res.materiasCreadas
    {
      ghost var oldCursos := cursos;
      var creados, existentes := SyncCursos(cursosUI, freshId, now);
      if MateriasReferenceCursos(oldCursos, materias) {
        ReferencesGrow(oldCursos, cursos, materias);
      }
      var creadas, existentesM := SyncMaterias(materiasUI, freshId, |cursosUI|, now);
      res := SyncCounts(creados, existentes, creadas, existentesM);
    }

    /** The first loop of `syncNames`. */
    method SyncCursos(cursosUI: seq<CursoFields>, freshId: nat -> string, now: string)
      returns (creados: nat, existentes: nat)
      requires forall k :: 0 <= k < |cursosUI| ==> cursosUI[k].name.Some?
      modifies this
      ensures materias == old(materias)
      ensures cursos == SyncedCursos(old(cursos), cursosUI, |cursosUI|, freshId, now)
      ensures creados + existentes == |cursosUI|
      ensures |cursos| == |old(cursos)| + creados && cursos[..|old(cursos)|] == old(cursos)
      ensures forall k :: 0 <= k < |cursosUI| ==> FindCursoByName(cursos, cursosUI[k].name.value).Some?
      ensures CursosStored(old(cursos), cursosUI) ==> creados == 0 && cursos == old(cursos)
      ensures old(CursoNamesUnique(cursos)) ==> CursoNamesUnique(cursos)
    {
      creados, existentes := 0, 0;
      for i := 0 to |cursosUI|
        invariant materias == old(materias)
        invariant cursos == SyncedCursos(old(cursos), cursosUI, i, freshId, now)
        invariant creados + existentes == i
        invariant |cursos| == |old(cursos)| + creados
      {
        ghost var before := cursos;
        var created := SyncCurso(cursosUI[i], freshId(i), now);
        if created {
          creados := creados + 1;
        } else {
          existentes := existentes + 1;
        }
        SyncedCursosStep(old(cursos), cursosUI, i, freshId, now, before, cursos);
      }
      forall k | 0 <= k < |cursosUI|
        ensures FindCursoByName(cursos, cursosUI[k].name.value).Some?
      {
        SyncedCursosFinds(old(cursos), cursosUI, |cursosUI|, k, freshId, now);
      }
      if CursosStored(old(cursos), cursosUI) {
        SyncedCursosAllStored(old(cursos), cursosUI, |cursosUI|, freshId, now);
      }
      if old(CursoNamesUnique(cursos)) {
        SyncedCursosNamesUnique(old(cursos), cursosUI, |cursosUI|, freshId, now);
      }
    }

    /** One iteration of the first loop of `syncNames`: a UI curso whose name is not found,
        ignoring case, is added with itself as the extras. */
    method SyncCurso(c: CursoFields, freshId: string, now: string) returns (created: bool)
      requires c.name.Some?
      modifies this
      ensures materias == old(materias)
      ensures created <==> FindCursoByName(old(cursos), c.name.value).None?
      ensures cursos == if created then old(cursos) + [NewCurso(freshId, c.name.value, now, c)]
                        else old(cursos)
    {
      var existing := FindCursoByName(cursos, c.name.value);
      if existing.None? {
        var _ := AddCurso(c.name.value, c, freshId, now);
        return true;
      }
      return false;
    }

    /** The second loop of `syncNames`. A UI materia without a truthy `cursoId` or `name` is
        skipped and counted nowhere; one with no match is counted as created even when
        `addMateria` then refuses it because its curso does not exist. The k-th UI materia
        gets the id `freshId(first + k)`. */
    method SyncMaterias(materiasUI: seq<MateriaFields>, freshId: nat -> string, first: nat, now: string)
      returns (creadas: nat, existentes: nat)
      modifies this
      ensures cursos == old(cursos)
      ensures materias == SyncedMaterias(cursos, old(materias), materiasUI, |materiasUI|, freshId, first, now)
      ensures creadas + existentes == Count(materiasUI, IsComplete)
      ensures |old(materias)| <= |materias| <= |old(materias)| + creadas
      ensures materias[..|old(materias)|] == old(materias)
      ensures AllCursosKnown(cursos, materiasUI, |materiasUI|) ==> |materias| == |old(materias)| + creadas
      ensures AllSynced(cursos, materias, materiasUI, |materiasUI|)
      ensures MateriasStored(old(materias), materiasUI) ==> creadas == 0 && materias == old(materias)
      ensures old(MateriaNamesUnique(materias)) ==> MateriaNamesUnique(materias)
      ensures MateriasReferenceCursos(cursos, old(materias)) ==>
                MateriasReferenceCursos(cursos, materias)
                && |materias| + CountOrphans(cursos, materiasUI, |materiasUI|) == |old(materias)| + creadas
    {
      ghost var lost := 0;
      creadas, existentes := 0, 0;
      for i := 0 to |materiasUI|
        invariant cursos == old(cursos)
        invariant SyncProgress(cursos, old(materias), materias, materiasUI, i, creadas, existentes, lost)
        invariant materias == SyncedMaterias(cursos, old(materias), materiasUI, i, freshId, first, now)
        invariant MateriasStored(old(materias), materiasUI) ==> creadas == 0
      {
        ghost var before := materias;
        var created, existed := SyncMateria(materiasUI[i], freshId(first + i), now);
        SyncProgressStep(cursos, old(materias), before, materias, materiasUI, i, creadas, existentes,
                         lost, created, existed, freshId(first + i), now);
        SyncedMateriasStep(cursos, old(materias), materiasUI, i, freshId, first, now, before, materias,
                           created, existed);
        if IsComplete(materiasUI[i]) {
          MateriaFoundGrows(old(materias), before, materiasUI[i].name.value, materiasUI[i].cursoId.value);
        }
        creadas := creadas + if created then 1 else 0;
        existentes := existentes + if existed then 1 else 0;
        lost := lost + if created && IsOrphan(cursos, materiasUI[i]) then 1 else 0;
      }
      SyncProgressDone(cursos, old(materias), materias, materiasUI, creadas, existentes, lost);
      if MateriasStored(old(materias), materiasUI) {
        SyncedMateriasAllStored(cursos, old(materias), materiasUI, |materiasUI|, freshId, first, now);
      }
      if old(MateriaNamesUnique(materias)) {
        SyncedMateriasNamesUnique(cursos, old(materias), materiasUI, |materiasUI|, freshId, first, now);
      }
    }

    /** One iteration of the second loop of `syncNames`. */
    method SyncMateria(m: MateriaFields, freshId: string, now: string)
      returns (created: bool, existed: bool)
      modifies this
      ensures cursos == old(cursos)
      ensures MateriaStep(cursos, old(materias), materias, m, created, existed, freshId, now)
    {
      if !IsComplete(m) {
        return false, false;
      }
      var existing := FindMateriaByName(materias, m.name.value, Some(m.cursoId.value));
      if existing.None? {
        var r := AddMateria(m.cursoId.value, m.name.value, m, freshId, now);
        if r.Success? {
          assert materias[|materias| - 1] == r.value;
          assert old(materias) == materias[..|old(materias)|];
        }
        return true, false;
      }
      return false, true;
    }
  }

  // ---------------------------------------------------------------------------
  // Client scenarios

  /** The life cycle `src/tests/db.test.js` walks through (leaving out its archiving and
      renaming steps): once the materia is deleted it is no longer listed, the curso can be
      deleted and is then no longer found. The refused delete of the curso while it still has
      its materia is an extra step of this model; the test deletes the materia first and never
      tries that. */
  method LifeCycle() returns (refusedFirst: bool, materiaListed: bool, cursoFound: bool)
    ensures refusedFirst && !materiaListed && !cursoFound
  {
    var db := new CatalogDb();
    var c := db.AddCurso("Curso Test", NoCursoFields, "c1", "t0");
    assert db.cursos == [NewCurso("c1", "Curso Test", "t0", NoCursoFields)];
    assert db.cursos[0].id == "c1";
    var m := db.AddMateria("c1", "Materia Test", NoMateriaFields, "m1", "t0");
    assert db.materias == [NewMateria("m1", "c1", "Materia Test", "t0", NoMateriaFields)];
    var first := db.DeleteCurso("c1");
    refusedFirst := first.Fail?;
    var dm := db.DeleteMateria("m1");
    assert db.materias == [];
    materiaListed := |MateriasByCurso(db.materias, "c1")| > 0;
    var dc := db.DeleteCurso("c1");
    assert db.cursos == [];
    cursoFound := GetCurso(db.cursos, "c1").Some?;
  }

  /** `syncNames` counts a UI materia whose curso does not exist as created, although nothing
      is stored for it. */
  method OrphanMateriaCountedAsCreated() returns (counts: SyncCounts, stored: nat)
    ensures counts.materiasCreadas == 1 && stored == 0
  {
    var db := new CatalogDb();
    var ui := MateriaFields(None, Some("c9"), Some("Química"), None, None, map[]);
    counts := db.SyncNames([], [ui], (k: nat) => "id", "t0");
    assert db.cursos == [];
    assert IsOrphan(db.cursos, ui) && IsComplete(ui);
    assert CountOrphans(db.cursos, [ui], 1) == 1 && Count([ui], IsComplete) == 1;
    stored := |db.materias|;
  }

  /** A store with cursos "A" (`c1`) and "B" (`c2`), each holding a materia named "Física". */
  method TwoCursosSameMateria() returns (db: CatalogDb)
    ensures fresh(db)
    ensures |db.cursos| == 2 && db.cursos[0].id == "c1" && db.cursos[1].id == "c2"
    ensures |db.materias| == 2
    ensures db.materias[0].id == "m1" && db.materias[0].cursoId == "c1" && db.materias[0].name == "Física"
    ensures db.materias[1].id == "m2" && db.materias[1].cursoId == "c2" && db.materias[1].name == "Física"
  {
    db := new CatalogDb();
    var a := db.AddCurso("A", NoCursoFields, "c1", "t0");
    var b := db.AddCurso("B", NoCursoFields, "c2", "t0");
    assert LowerStr("A")[0] != LowerStr("B")[0];
    assert db.cursos[0].id == "c1" && db.cursos[1].id == "c2";
    var m1 := db.AddMateria("c1", "Física", NoMateriaFields, "m1", "t0");
    assert |db.materias| == 1 && db.materias[0].cursoId == "c1";
    var m2 := db.AddMateria("c2", "Física", NoMateriaFields, "m2", "t0");
  }

  /** `updateMateria` checks names only when the name changes, so moving a materia into a curso
      that already has a materia of the same name succeeds and leaves two materias of one
      curso with the same name. */
  method MoveDuplicatesName() returns (moved: bool, namesUnique: bool)
    ensures moved && !namesUnique
  {
    var db := TwoCursosSameMateria();
    var move := NoMateriaFields.(cursoId := Some("c1"));
    assert MateriaIndex(db.materias, "m2") == Some(1);
    var r := db.UpdateMateria("m2", move, "t1");
    moved := r.Success?;
    assert db.materias[0].cursoId == db.materias[1].cursoId == "c1";
    namesUnique := MateriaNamesUnique(db.materias);
  }

  // ---------------------------------------------------------------------------
  // Lemmas behind the store's postconditions

  lemma {:induction false} RenameKeepsNamesUnique(cursos: seq<Curso>, i: nat, datos: CursoFields,
                                                  updated: Curso)
    requires i < |cursos| && CursoNamesUnique(cursos) && CursoIdsUnique(cursos)
    requires datos.name != Some("")
    requires !CursoRenameRefused(cursos, i, cursos[i].id, datos)
    requires updated.name == datos.name.GetOr(cursos[i].name)
    ensures CursoNamesUnique(cursos[i := updated])
  {
    var s := cursos[i := updated];
    if datos.name.Some? && datos.name.value != cursos[i].name {
      CursoRenameRefusedIff(cursos, i, datos);
      forall a, b | 0 <= a < b < |s| ensures !SameIgnoringCase(s[a].name, s[b].name) {
        if a == i {
          assert !SameIgnoringCase(cursos[b].name, datos.name.value);
        } else if b == i {
          assert !SameIgnoringCase(cursos[a].name, datos.name.value);
        }
      }
    }
  }

  lemma {:induction false} MateriaRenameKeepsNamesUnique(materias: seq<Materia>, i: nat,
                                                         datos: MateriaFields, updated: Materia)
    requires i < |materias| && MateriaNamesUnique(materias) && MateriaIdsUnique(materias)
    requires datos.name != Some("") && (datos.cursoId.None? || datos.cursoId == Some(materias[i].cursoId))
    requires !MateriaRenameRefused(materias, i, materias[i].id, datos)
    requires updated.name == datos.name.GetOr(materias[i].name)
    requires updated.cursoId == materias[i].cursoId
    ensures MateriaNamesUnique(materias[i := updated])
  {
    var s := materias[i := updated];
    if datos.name.Some? && datos.name.value != materias[i].name {
      var n := datos.name.value;
      var c := materias[i].cursoId;
      forall j | 0 <= j < |materias| && j != i && materias[j].cursoId == c
        ensures !SameIgnoringCase(materias[j].name, n)
      {
        if SameIgnoringCase(materias[j].name, n) {
          assert false;
        }
      }
      forall a, b | 0 <= a < b < |s| && s[a].cursoId == s[b].cursoId
        ensures !SameIgnoringCase(s[a].name, s[b].name)
      {
        if a == i {
          assert !SameIgnoringCase(materias[b].name, n);
        } else if b == i {
          assert !SameIgnoringCase(materias[a].name, n);
        }
      }
    }
  }

  /** Appending cursos keeps every name that was found findable. */
  lemma FoundStaysFound(before: seq<Curso>, after: seq<Curso>, names: seq<CursoFields>)
    requires |before| <= |after| && after[..|before|] == before
    requires forall k :: 0 <= k < |names| ==> names[k].name.Some?
    requires forall k :: 0 <= k < |names| ==> FindCursoByName(before, names[k].name.value).Some?
    ensures forall k :: 0 <= k < |names| ==> FindCursoByName(after, names[k].name.value).Some?
  {
    forall k | 0 <= k < |names| ensures FindCursoByName(after, names[k].name.value).Some? {
      CursoFoundGrows(before, after, names[k].name.value);
    }
  }

  /** Appending cursos keeps a name that was found findable. */
  lemma CursoFoundGrows(before: seq<Curso>, after: seq<Curso>, nombre: string)
    requires |before| <= |after| && after[..|before|] == before
    ensures FindCursoByName(before, nombre).Some? ==> FindCursoByName(after, nombre).Some?
  {
    if FindCursoByName(before, nombre).Some? {
      var i :| 0 <= i < |before| && SameIgnoringCase(before[i].name, nombre);
      assert after[i] == before[i];
    }
  }

  /** Appending materias keeps a name that was found in a curso findable there. */
  lemma MateriaFoundGrows(before: seq<Materia>, after: seq<Materia>, nombre: string, cursoId: string)
    requires |before| <= |after| && after[..|before|] == before
    ensures FindMateriaByName(before, nombre, Some(cursoId)).Some?
            ==> FindMateriaByName(after, nombre, Some(cursoId)).Some?
  {
    if FindMateriaByName(before, nombre, Some(cursoId)).Some? {
      var i :| 0 <= i < |before| && SameIgnoringCase(before[i].name, nombre) && before[i].cursoId == cursoId;
      assert after[i] == before[i];
    }
  }

  /** Appending materias keeps every synced UI materia synced. */
  lemma SyncedGrows(cursos: seq<Curso>, before: seq<Materia>, after: seq<Materia>,
                    ui: seq<MateriaFields>, n: nat)
    requires n <= |ui| && |before| <= |after| && after[..|before|] == before
    requires AllSynced(cursos, before, ui, n)
    ensures AllSynced(cursos, after, ui, n)
  {
    forall k | 0 <= k < n && IsComplete(ui[k]) && HasCurso(cursos, ui[k].cursoId.value)
      ensures FindMateriaByName(after, ui[k].name.value, Some(ui[k].cursoId.value)).Some?
    {
      MateriaFoundGrows(before, after, ui[k].name.value, ui[k].cursoId.value);
    }
  }

  /** Appending cursos keeps every reference valid. */
  lemma ReferencesGrow(before: seq<Curso>, after: seq<Curso>, materias: seq<Materia>)
    requires |before| <= |after| && after[..|before|] == before
    requires MateriasReferenceCursos(before, materias)
    ensures MateriasReferenceCursos(after, materias)
  {
    forall k | 0 <= k < |materias| ensures HasCurso(after, materias[k].cursoId) {
      var j :| 0 <= j < |before| && before[j].id == materias[k].cursoId;
      assert after[j] == before[j];
    }
  }

  /** Every UI curso's name is already stored, ignoring case. */
  predicate CursosStored(cursos: seq<Curso>, ui: seq<CursoFields>) {
    forall k :: 0 <= k < |ui| && ui[k].name.Some? ==> FindCursoByName(cursos, ui[k].name.value).Some?
  }

  /** Every UI materia with a truthy `cursoId` and `name` is already stored in its curso. */
  predicate MateriasStored(materias: seq<Materia>, ui: seq<MateriaFields>) {
    forall k :: 0 <= k < |ui| && IsComplete(ui[k])
      ==> FindMateriaByName(materias, ui[k].name.value, Some(ui[k].cursoId.value)).Some?
  }

  /** The cursos after the first `n` iterations of the first loop of `syncNames`: a UI curso
      whose name is not found, ignoring case, among the cursos so far is appended as the
      record `addCurso` builds for it, with the id generated for it. */
  function SyncedCursos(start: seq<Curso>, ui: seq<CursoFields>, n: nat, freshId: nat -> string,
                        now: string): (r: seq<Curso>)
    requires n <= |ui| && forall k :: 0 <= k < |ui| ==> ui[k].name.Some?
    ensures |start| <= |r| <= |start| + n && r[..|start|] == start
  {
    if n == 0 then start
    else
      var prev := SyncedCursos(start, ui, n - 1, freshId, now);
      if FindCursoByName(prev, ui[n - 1].name.value).None?
      then prev + [NewCurso(freshId(n - 1), ui[n - 1].name.value, now, ui[n - 1])]
      else prev
  }

  /** The materias after the first `n` iterations of the second loop of `syncNames`: a UI
      materia with a truthy `cursoId` and `name`, whose curso is stored and whose name is not
      found in that curso among the materias so far, is appended as the record `addMateria`
      builds for it, with the id `freshId(first + k)`. */
  function SyncedMaterias(cursos: seq<Curso>, start: seq<Materia>, ui: seq<MateriaFields>, n: nat,
                          freshId: nat -> string, first: nat, now: string): (r: seq<Materia>)
    requires n <= |ui|
    ensures |start| <= |r| <= |start| + n && r[..|start|] == start
  {
    if n == 0 then start
    else
      var prev := SyncedMaterias(cursos, start, ui, n - 1, freshId, first, now);
      var m := ui[n - 1];
      if IsComplete(m) && HasCurso(cursos, m.cursoId.value)
         && FindMateriaByName(prev, m.name.value, Some(m.cursoId.value)).None?
      then prev + [NewMateria(freshId(first + n - 1), m.cursoId.value, m.name.value, now, m)]
      else prev
  }

  /** One iteration of the first loop of `syncNames` extends the cursos it has built so far
      exactly as `SyncedCursos` does. */
  lemma SyncedCursosStep(start: seq<Curso>, ui: seq<CursoFields>, i: nat, freshId: nat -> string,
                         now: string, before: seq<Curso>, after: seq<Curso>)
    requires i < |ui| && forall k :: 0 <= k < |ui| ==> ui[k].name.Some?
    requires before == SyncedCursos(start, ui, i, freshId, now)
    requires after == if FindCursoByName(before, ui[i].name.value).None?
                      then before + [NewCurso(freshId(i), ui[i].name.value, now, ui[i])]
                      else before
    ensures after == SyncedCursos(start, ui, i + 1, freshId, now)
  {
    assert i + 1 - 1 == i;
  }

  /** One iteration of the second loop of `syncNames` extends the materias it has built so far
      exactly as `SyncedMaterias` does. */
  lemma SyncedMateriasStep(cursos: seq<Curso>, start: seq<Materia>, ui: seq<MateriaFields>, i: nat,
                           freshId: nat -> string, first: nat, now: string,
                           before: seq<Materia>, after: seq<Materia>, created: bool, existed: bool)
    requires i < |ui| && before == SyncedMaterias(cursos, start, ui, i, freshId, first, now)
    requires MateriaStep(cursos, before, after, ui[i], created, existed, freshId(first + i), now)
    ensures after == SyncedMaterias(cursos, start, ui, i + 1, freshId, first, now)
  {
    assert first + (i + 1) - 1 == first + i;
  }

  /** Appending a curso whose name is not stored, ignoring case, keeps names unique. */
  lemma AppendCursoKeepsNamesUnique(cursos: seq<Curso>, c: Curso)
    requires CursoNamesUnique(cursos) && FindCursoByName(cursos, c.name).None?
    ensures CursoNamesUnique(cursos + [c])
  {
    var s := cursos + [c];
    forall i, j | 0 <= i < j < |s| ensures !SameIgnoringCase(s[i].name, s[j].name) {
      if j == |cursos| {
        assert s[i] == cursos[i];
      } else {
        assert s[i] == cursos[i] && s[j] == cursos[j];
      }
    }
  }

  /** Appending a materia whose name is not stored in its curso keeps names unique. */
  lemma AppendMateriaKeepsNamesUnique(materias: seq<Materia>, m: Materia)
    requires MateriaNamesUnique(materias) && FindMateriaByName(materias, m.name, Some(m.cursoId)).None?
    ensures MateriaNamesUnique(materias + [m])
  {
    var s := materias + [m];
    forall i, j | 0 <= i < j < |s| && s[i].cursoId == s[j].cursoId
      ensures !SameIgnoringCase(s[i].name, s[j].name)
    {
      if j == |materias| {
        assert s[i] == materias[i];
      } else {
        assert s[i] == materias[i] && s[j] == materias[j];
      }
    }
  }

  /** After the first loop, the name of the k-th UI curso is found, ignoring case. */
  lemma {:induction false} SyncedCursosFinds(start: seq<Curso>, ui: seq<CursoFields>, n: nat, k: nat,
                                             freshId: nat -> string, now: string)
    requires k < n <= |ui| && forall k :: 0 <= k < |ui| ==> ui[k].name.Some?
    ensures FindCursoByName(SyncedCursos(start, ui, n, freshId, now), ui[k].name.value).Some?
  {
    var prev := SyncedCursos(start, ui, n - 1, freshId, now);
    var r := SyncedCursos(start, ui, n, freshId, now);
    var nombre := ui[n - 1].name.value;
    if k < n - 1 {
      SyncedCursosFinds(start, ui, n - 1, k, freshId, now);
      assert r[..|prev|] == prev;
      CursoFoundGrows(prev, r, ui[k].name.value);
    } else if FindCursoByName(prev, nombre).None? {
      var c := NewCurso(freshId(n - 1), nombre, now, ui[n - 1]);
      assert r == prev + [c];
      assert r[|prev|] == c && c.name == nombre;
    }
  }

  /** Each curso the first loop appends, the j-th of the list, is the record `addCurso` built
      for a UI curso whose name was not stored before the loop, with the id generated for that
      UI curso. */
  lemma {:induction false} SyncedCursosFromUI(start: seq<Curso>, ui: seq<CursoFields>, n: nat, j: nat,
                                              freshId: nat -> string, now: string)
    requires n <= |ui| && forall k :: 0 <= k < |ui| ==> ui[k].name.Some?
    requires |start| <= j < |SyncedCursos(start, ui, n, freshId, now)|
    ensures exists k :: 0 <= k < n && FindCursoByName(start, ui[k].name.value).None?
                        && SyncedCursos(start, ui, n, freshId, now)[j]
                           == NewCurso(freshId(k), ui[k].name.value, now, ui[k])
  {
    var prev := SyncedCursos(start, ui, n - 1, freshId, now);
    var r := SyncedCursos(start, ui, n, freshId, now);
    if j < |prev| {
      SyncedCursosFromUI(start, ui, n - 1, j, freshId, now);
      var k :| 0 <= k < n - 1 && FindCursoByName(start, ui[k].name.value).None?
               && prev[j] == NewCurso(freshId(k), ui[k].name.value, now, ui[k]);
      assert r[j] == prev[j];
    } else {
      var nombre := ui[n - 1].name.value;
      CursoFoundGrows(start, prev, nombre);
      assert r == prev + [NewCurso(freshId(n - 1), nombre, now, ui[n - 1])];
      assert FindCursoByName(start, ui[n - 1].name.value).None?
             && r[j] == NewCurso(freshId(n - 1), ui[n - 1].name.value, now, ui[n - 1]);
    }
  }

  /** When every UI curso's name is already stored, the first loop appends nothing. */
  lemma {:induction false} SyncedCursosAllStored(start: seq<Curso>, ui: seq<CursoFields>, n: nat,
                                                 freshId: nat -> string, now: string)
    requires n <= |ui| && forall k :: 0 <= k < |ui| ==> ui[k].name.Some?
    requires CursosStored(start, ui)
    ensures SyncedCursos(start, ui, n, freshId, now) == start
  {
    if n > 0 {
      SyncedCursosAllStored(start, ui, n - 1, freshId, now);
      assert FindCursoByName(start, ui[n - 1].name.value).Some?;
    }
  }

  /** The first loop keeps curso names unique. */
  lemma {:induction false} SyncedCursosNamesUnique(start: seq<Curso>, ui: seq<CursoFields>, n: nat,
                                                   freshId: nat -> string, now: string)
    requires n <= |ui| && forall k :: 0 <= k < |ui| ==> ui[k].name.Some?
    requires CursoNamesUnique(start)
    ensures CursoNamesUnique(SyncedCursos(start, ui, n, freshId, now))
  {
    if n > 0 {
      var prev := SyncedCursos(start, ui, n - 1, freshId, now);
      SyncedCursosNamesUnique(start, ui, n - 1, freshId, now);
      var nombre := ui[n - 1].name.value;
      if FindCursoByName(prev, nombre).None? {
        AppendCursoKeepsNamesUnique(prev, NewCurso(freshId(n - 1), nombre, now, ui[n - 1]));
      }
    }
  }

  /** Each materia the second loop appends, the j-th of the list, is the record `addMateria`
      built for a UI materia with a truthy `cursoId` and `name`, whose curso is stored and whose
      name was not stored in that curso before the loop, with the id generated for that UI
      materia. */
  lemma {:induction false} SyncedMateriasFromUI(cursos: seq<Curso>, start: seq<Materia>,
                                                ui: seq<MateriaFields>, n: nat, j: nat,
                                                freshId: nat -> string, first: nat, now: string)
    requires n <= |ui|
    requires |start| <= j < |SyncedMaterias(cursos, start, ui, n, freshId, first, now)|
    ensures exists k :: 0 <= k < n && IsComplete(ui[k]) && HasCurso(cursos, ui[k].cursoId.value)
                        && FindMateriaByName(start, ui[k].name.value, Some(ui[k].cursoId.value)).None?
                        && SyncedMaterias(cursos, start, ui, n, freshId, first, now)[j]
                           == NewMateria(freshId(first + k), ui[k].cursoId.value, ui[k].name.value, now, ui[k])
  {
    var prev := SyncedMaterias(cursos, start, ui, n - 1, freshId, first, now);
    var r := SyncedMaterias(cursos, start, ui, n, freshId, first, now);
    if j < |prev| {
      SyncedMateriasFromUI(cursos, start, ui, n - 1, j, freshId, first, now);
      var k :| 0 <= k < n - 1 && IsComplete(ui[k]) && HasCurso(cursos, ui[k].cursoId.value)
               && FindMateriaByName(start, ui[k].name.value, Some(ui[k].cursoId.value)).None?
               && prev[j] == NewMateria(freshId(first + k), ui[k].cursoId.value, ui[k].name.value, now, ui[k]);
      assert r[j] == prev[j];
    } else {
      var m := ui[n - 1];
      MateriaFoundGrows(start, prev, m.name.value, m.cursoId.value);
      assert r == prev + [NewMateria(freshId(first + (n - 1)), m.cursoId.value, m.name.value, now, m)];
      assert IsComplete(ui[n - 1]) && HasCurso(cursos, ui[n - 1].cursoId.value)
             && FindMateriaByName(start, ui[n - 1].name.value, Some(ui[n - 1].cursoId.value)).None?
             && r[j] == NewMateria(freshId(first + (n - 1)), ui[n - 1].cursoId.value,
                                   ui[n - 1].name.value, now, ui[n - 1]);
    }
  }

  /** When every UI materia is already stored in its curso, the second loop appends nothing. */
  lemma {:induction false} SyncedMateriasAllStored(cursos: seq<Curso>, start: seq<Materia>,
                                                   ui: seq<MateriaFields>, n: nat,
                                                   freshId: nat -> string, first: nat, now: string)
    requires n <= |ui| && MateriasStored(start, ui)
    ensures SyncedMaterias(cursos, start, ui, n, freshId, first, now) == start
  {
    if n > 0 {
      SyncedMateriasAllStored(cursos, start, ui, n - 1, freshId, first, now);
    }
  }

  /** The second loop keeps materia names unique within each curso. */
  lemma {:induction false} SyncedMateriasNamesUnique(cursos: seq<Curso>, start: seq<Materia>,
                                                     ui: seq<MateriaFields>, n: nat,
                                                     freshId: nat -> string, first: nat, now: string)
    requires n <= |ui| && MateriaNamesUnique(start)
    ensures MateriaNamesUnique(SyncedMaterias(cursos, start, ui, n, freshId, first, now))
  {
    if n > 0 {
      var prev := SyncedMaterias(cursos, start, ui, n - 1, freshId, first, now);
      SyncedMateriasNamesUnique(cursos, start, ui, n - 1, freshId, first, now);
      var m := ui[n - 1];
      if IsComplete(m) && HasCurso(cursos, m.cursoId.value)
         && FindMateriaByName(prev, m.name.value, Some(m.cursoId.value)).None? {
        AppendMateriaKeepsNamesUnique(prev, NewMateria(freshId(first + n - 1), m.cursoId.value,
                                                       m.name.value, now, m));
      }
    }
  }

  /** What one iteration of the second loop of `syncNames` does with the UI materia `m`: it is
      counted as created or as existing exactly when `cursoId` and `name` are truthy, created
      exactly when its name is not yet in its curso; the materias only grow at the end, by the
      record `addMateria` builds when a created materia's curso is stored, and not at all
      otherwise; afterwards its name is
      found in its curso when that curso is stored; valid references stay valid, and with valid
      references an orphan is always counted as created. */
  ghost predicate MateriaStep(cursos: seq<Curso>, before: seq<Materia>, after: seq<Materia>,
                              m: MateriaFields, created: bool, existed: bool, freshId: string,
                              now: string)
  {
    (IsComplete(m) <==> created || existed)
    && !(created && existed)
    && (created <==> IsComplete(m)
                     && FindMateriaByName(before, m.name.value, Some(m.cursoId.value)).None?)
    && |before| <= |after| && after[..|before|] == before
    && after == (if created && HasCurso(cursos, m.cursoId.value)
                 then before + [NewMateria(freshId, m.cursoId.value, m.name.value, now, m)]
                 else before)
    && (IsComplete(m) && HasCurso(cursos, m.cursoId.value)
        ==> FindMateriaByName(after, m.name.value, Some(m.cursoId.value)).Some?)
    && (MateriasReferenceCursos(cursos, before) ==> MateriasReferenceCursos(cursos, after))
    && (MateriasReferenceCursos(cursos, before) && IsOrphan(cursos, m) ==> created)
  }

  /** The state of the second loop of `syncNames` after the first `i` UI materias: the
      counters, the materias appended so far (one per creation except the `lost` ones, which
      were counted as created but refused because their curso is not stored), and the synced
      names. When the stored materias reference stored cursos, every orphan is lost. */
  ghost predicate SyncProgress(cursos: seq<Curso>, start: seq<Materia>, materias: seq<Materia>,
                               ui: seq<MateriaFields>, i: nat, creadas: nat, existentes: nat,
                               lost: nat)
  {
    i <= |ui|
    && creadas + existentes == CountComplete(ui, i)
    && |start| <= |materias| && materias[..|start|] == start
    && |materias| + lost == |start| + creadas
    && lost <= CountOrphans(cursos, ui, i)
    && AllSynced(cursos, materias, ui, i)
    && (MateriasReferenceCursos(cursos, start)
        ==> MateriasReferenceCursos(cursos, materias) && lost == CountOrphans(cursos, ui, i))
  }

  /** One iteration of the second loop of `syncNames` keeps `SyncProgress`. */
  lemma SyncProgressStep(cursos: seq<Curso>, start: seq<Materia>, before: seq<Materia>,
                         after: seq<Materia>, ui: seq<MateriaFields>, i: nat, creadas: nat,
                         existentes: nat, lost: nat, created: bool, existed: bool,
                         freshId: string, now: string)
    requires i < |ui|
    requires SyncProgress(cursos, start, before, ui, i, creadas, existentes, lost)
    requires MateriaStep(cursos, before, after, ui[i], created, existed, freshId, now)
    ensures SyncProgress(cursos, start, after, ui, i + 1,
                         creadas + (if created then 1 else 0), existentes + (if existed then 1 else 0),
                         lost + (if created && IsOrphan(cursos, ui[i]) then 1 else 0))
  {
    assert |before| <= |after| && after[..|before|] == before;
    assert after[..|start|] == before[..|start|];
    SyncedStep(cursos, before, after, ui, i);
  }

  /** What `SyncProgress` says once every UI materia is processed. */
  lemma SyncProgressDone(cursos: seq<Curso>, start: seq<Materia>, materias: seq<Materia>,
                         ui: seq<MateriaFields>, creadas: nat, existentes: nat, lost: nat)
    requires SyncProgress(cursos, start, materias, ui, |ui|, creadas, existentes, lost)
    ensures creadas + existentes == Count(ui, IsComplete)
    ensures |start| <= |materias| <= |start| + creadas
    ensures materias[..|start|] == start
    ensures AllCursosKnown(cursos, ui, |ui|) ==> |materias| == |start| + creadas
    ensures AllSynced(cursos, materias, ui, |ui|)
    ensures MateriasReferenceCursos(cursos, start) ==>
              MateriasReferenceCursos(cursos, materias)
              && |materias| + CountOrphans(cursos, ui, |ui|) == |start| + creadas
  {
    CountCompleteIsCount(ui, |ui|);
    assert ui[..|ui|] == ui;
  }

  /** `CountComplete` over a prefix is `Count` over that prefix. */
  lemma {:induction false} CountCompleteIsCount(ui: seq<MateriaFields>, n: nat)
    requires n <= |ui|
    ensures CountComplete(ui, n) == Count(ui[..n], IsComplete)
  {
    if n > 0 {
      CountCompleteIsCount(ui, n - 1);
      CountPrefix(ui, n - 1, IsComplete);
    }
  }

  /** One more UI materia synced on top of an append. */
  lemma SyncedStep(cursos: seq<Curso>, before: seq<Materia>, after: seq<Materia>,
                   ui: seq<MateriaFields>, i: nat)
    requires i < |ui| && |before| <= |after| && after[..|before|] == before
    requires AllSynced(cursos, before, ui, i)
    requires IsComplete(ui[i]) && HasCurso(cursos, ui[i].cursoId.value)
      ==> FindMateriaByName(after, ui[i].name.value, Some(ui[i].cursoId.value)).Some?
    ensures AllSynced(cursos, after, ui, i + 1)
  {
    SyncedGrows(cursos, before, after, ui, i);
  }

  lemma {:induction false} RemoveKeepsReferences(cursos: seq<Curso>, i: nat, materias: seq<Materia>,
                                                 id: string)
    requires i < |cursos| && cursos[i].id == id
    requires forall m :: m in materias ==> m.cursoId != id
    requires MateriasReferenceCursos(cursos, materias)
    ensures MateriasReferenceCursos(RemoveAt(cursos, i), materias)
  {
    var s := RemoveAt(cursos, i);
    forall k | 0 <= k < |materias| ensures HasCurso(s, materias[k].cursoId) {
      var j :| 0 <= j < |cursos| && cursos[j].id == materias[k].cursoId;
      assert materias[k] in materias;
      assert j != i;
      if j < i {
        assert s[j].id == materias[k].cursoId;
      } else {
        assert s[j - 1].id == materias[k].cursoId;
      }
    }
  }
}
