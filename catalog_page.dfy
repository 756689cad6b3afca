/** The page that lists the catalog's courses and subjects (`cursos_materias`): the list
    filter, the statistics cards, and the form and archive handlers that call the catalog
    service. The service is outside the model; `CatalogService` stands for any run of it. */
module CatalogPage {
  import opened Util
  import opened Text

  /** A catalog item as the service returns it; `descripcion` may be null. */
  datatype CursoMateria = CursoMateria(id: string, nombre: string, descripcion: Option<string>,
                                       categoria: string, archivado: bool)

  /** The form's fields (`CursoMateriaInput` without `archivado`). */
  datatype FormData = FormData(nombre: string, descripcion: string, categoria: string)

  const Categorias: seq<string> := ["Ciencias", "Humanidades", "Tecnología", "Artes", "Deportes"]

  // ---------------------------------------------------------------------------
  // The list filter

  /** The search test: the name, a non-null description or the category contains the query,
      ignoring case. */
  predicate MatchesQuery(item: CursoMateria, query: string) {
    IncludesIgnoringCase(item.nombre, query)
    || (item.descripcion.Some? && IncludesIgnoringCase(item.descripcion.value, query))
    || IncludesIgnoringCase(item.categoria, query)
  }

  /** The callback of `filteredData`, branch by branch. */
  predicate Kept(item: CursoMateria, showArchived: bool, categoryFilter: string, searchQuery: string) {
    if showArchived != item.archivado then false
    else if categoryFilter != "all" && item.categoria != categoryFilter then false
    else if searchQuery != "" then MatchesQuery(item, searchQuery)
    else true
  }

  /** `filteredData`: the items of the chosen view (archived or not) and category whose text
      matches a non-empty query, in their order. */
  function FilteredData(items: seq<CursoMateria>, showArchived: bool, categoryFilter: string,
                        searchQuery: string): (r: seq<CursoMateria>)
    ensures forall x :: x in r <==> x in items && x.archivado == showArchived
                                    && (categoryFilter == "all" || x.categoria == categoryFilter)
                                    && (searchQuery == "" || MatchesQuery(x, searchQuery))
    ensures IsSublist(r, items)
  {
    var keep := (x: CursoMateria) => Kept(x, showArchived, categoryFilter, searchQuery);
    FilterIsSublist(items, keep);
    FilterMembers(items, keep);
    Filter(items, keep)
  }

  /** With an empty query the text filter is off: the list is the view and category filter. */
  lemma EmptyQueryFiltersNoText(items: seq<CursoMateria>, showArchived: bool, categoryFilter: string)
    ensures FilteredData(items, showArchived, categoryFilter, "")
            == Filter(items, (x: CursoMateria) => x.archivado == showArchived
                                                  && (categoryFilter == "all" || x.categoria == categoryFilter))
  {
    FilterCongruent(items, (x: CursoMateria) => Kept(x, showArchived, categoryFilter, ""),
                    (x: CursoMateria) => x.archivado == showArchived
                                         && (categoryFilter == "all" || x.categoria == categoryFilter));
  }

  /** The active and the archived view split the list: with the same category and query, every
      item that passes those is in exactly one of the two views. */
  lemma ViewsPartition(items: seq<CursoMateria>, categoryFilter: string, searchQuery: string)
    ensures |FilteredData(items, false, categoryFilter, searchQuery)|
            + |FilteredData(items, true, categoryFilter, searchQuery)|
            == |Filter(items, (x: CursoMateria) => (categoryFilter == "all" || x.categoria == categoryFilter)
                                                   && (searchQuery == "" || MatchesQuery(x, searchQuery)))|
  {
    FilterPartition(items,
                    (x: CursoMateria) => (categoryFilter == "all" || x.categoria == categoryFilter)
                                         && (searchQuery == "" || MatchesQuery(x, searchQuery)),
                    (x: CursoMateria) => Kept(x, false, categoryFilter, searchQuery),
                    (x: CursoMateria) => Kept(x, true, categoryFilter, searchQuery));
  }

  // ---------------------------------------------------------------------------
  // The statistics

  datatype Stats = Stats(total: nat, activos: nat, archivados: nat, porCategoria: map<string, nat>)

  /** `cursosMaterias.filter(item => item.categoria === cat && !item.archivado).length`. */
  function CategoryCount(items: seq<CursoMateria>, cat: string): nat {
    |Filter(items, (x: CursoMateria) => x.categoria == cat && !x.archivado)|
  }

  /** The `reduce` over the categories: each category's count is written into the map. */
  function Tally(items: seq<CursoMateria>, cats: seq<string>, acc: map<string, nat>)
    : (m: map<string, nat>)
    ensures m.Keys == acc.Keys + set c | c in cats
    ensures forall c :: c in cats ==> m[c] == CategoryCount(items, c)
    ensures forall c :: c in acc && c !in cats ==> m[c] == acc[c]
    decreases |cats|
  {
    if cats == [] then acc
    else Tally(items, cats[1..], acc[cats[0] := CategoryCount(items, cats[0])])
  }

  /** An item the active view lists (`!item.archivado`). */
  predicate IsActive(x: CursoMateria) { !x.archivado }

  /** An item the archived view lists. */
  predicate IsArchived(x: CursoMateria) { x.archivado }

  /** `stats`. */
  function ComputeStats(items: seq<CursoMateria>): (s: Stats)
    ensures s.total == |items|
    ensures s.activos == Count(items, IsActive)
    ensures s.archivados == Count(items, IsArchived)
    ensures s.activos + s.archivados == s.total
    ensures s.porCategoria.Keys == set c | c in Categorias
    ensures forall c :: c in Categorias ==> s.porCategoria[c] == CategoryCount(items, c)
  {
    FilterSplitLength(items, IsActive, IsArchived);
    FilterLengthIsCount(items, IsActive);
    FilterLengthIsCount(items, IsArchived);
    Stats(|items|, |Filter(items, IsActive)|, |Filter(items, IsArchived)|, Tally(items, Categorias, map[]))
  }

  /** The sum of the category counts of `cats`. */
  function SumCategories(items: seq<CursoMateria>, cats: seq<string>): nat {
    if cats == [] then 0 else CategoryCount(items, cats[0]) + SumCategories(items, cats[1..])
  }

  /** Over distinct categories, the counts add up to the active items in one of them. */
  lemma {:induction false} SumIsActiveInCategories(items: seq<CursoMateria>, cats: seq<string>)
    requires NoDup(cats)
    ensures SumCategories(items, cats)
            == |Filter(items, (x: CursoMateria) => !x.archivado && x.categoria in cats)|
  {
    if cats == [] {
      FilterKeepsNone(items, (x: CursoMateria) => !x.archivado && x.categoria in cats);
    } else {
      var rest := cats[1..];
      assert NoDup(rest) by {
        forall i, j | 0 <= i < j < |rest| ensures rest[i] != rest[j] {
          assert rest[i] == cats[i + 1] && rest[j] == cats[j + 1];
        }
      }
      SumIsActiveInCategories(items, rest);
      assert forall c :: c in cats <==> c == cats[0] || c in rest;
      assert cats[0] !in rest;
      FilterPartition(items, (x: CursoMateria) => !x.archivado && x.categoria in cats,
                      (x: CursoMateria) => x.categoria == cats[0] && !x.archivado,
                      (x: CursoMateria) => !x.archivado && x.categoria in rest);
    }
  }

  /** `porCategoria`'s counts add up to at most `activos`: an item in no listed category is
      active but counted in no category. */
  lemma CategoryCountsWithinActivos(items: seq<CursoMateria>)
    ensures var s := ComputeStats(items);
            SumCategories(items, Categorias) <= s.activos
  {
    assert NoDup(Categorias) by {
      forall i, j | 0 <= i < j < |Categorias| ensures Categorias[i] != Categorias[j] {
        assert Categorias[i][0] != Categorias[j][0];
      }
    }
    SumIsActiveInCategories(items, Categorias);
    FilterPartition(items, IsActive,
                    (x: CursoMateria) => !x.archivado && x.categoria in Categorias,
                    (x: CursoMateria) => !x.archivado && x.categoria !in Categorias);
  }

  // ---------------------------------------------------------------------------
  // The page

  datatype ServiceCall =
    | Create(data: FormData)
    | Update(id: string, data: FormData)
    | ToggleArchive(id: string, archivado: bool)

  /** `cursosMateriasService` as the page sees it: the calls made so far, and `respond(k)`,
      the reply to the k-th call. */
  class CatalogService {
    var calls: seq<ServiceCall>
    const respond: nat -> Reply

    constructor(respond: nat -> Reply)
      ensures calls == [] && this.respond == respond
    {
      calls := [];
      this.respond := respond;
    }

    method Invoke(c: ServiceCall) returns (reply: Reply)
      modifies this
      ensures calls == old(calls) + [c]
      ensures reply == respond(|old(calls)|)
    {
      reply := respond(|calls|);
      calls := calls + [c];
    }
  }

  datatype NoticeKind = Success | Failure
  datatype Notice = Notice(kind: NoticeKind, message: string)

  const NameRequired := "El nombre es obligatorio"
  const UpdatedText := "Curso/Materia actualizado exitosamente"
  const CreatedText := "Curso/Materia creado exitosamente"
  const SaveFailed := "Error al guardar"

  /** The empty form `handleCreate` opens. */
  const EmptyForm := FormData("", "", Categorias[0])

  /** The form `handleEdit` opens for `item`: its fields, a null description shown as ''. */
  function FormOf(item: CursoMateria): (f: FormData)
    ensures f.nombre == item.nombre && f.categoria == item.categoria
    ensures f.descripcion == "" <==> item.descripcion.None? || item.descripcion == Some("")
    ensures item.descripcion.Some? ==> f.descripcion == item.descripcion.value
  {
    FormData(item.nombre, item.descripcion.GetOr(""), item.categoria)
  }

  /** The word the archive messages use. */
  function ArchiveAction(archivado: bool): string {
    if archivado then "desarchivar" else "archivar"
  }

  class Page {
    const service: CatalogService
    var notification: Option<Notice>
    var showForm: bool
    var editingItem: Option<CursoMateria>
    var isSubmitting: bool
    var formData: FormData

    constructor(service: CatalogService)
      ensures this.service == service
      ensures notification == None && !showForm && editingItem == None && !isSubmitting
      ensures formData == EmptyForm
    {
      this.service := service;
      notification := None;
      showForm := false;
      editingItem := None;
      isSubmitting := false;
      formData := EmptyForm;
    }

    /** `handleCreate`: a new item, an empty form with the first category. */
    method HandleCreate()
      modifies this
      ensures editingItem == None && formData == EmptyForm && showForm
      ensures notification == old(notification) && isSubmitting == old(isSubmitting)
    {
      editingItem := None;
      formData := EmptyForm;
      showForm := true;
    }

    /** `handleEdit`: the item is being edited and the form shows its fields. */
    method HandleEdit(item: CursoMateria)
      modifies this
      ensures editingItem == Some(item) && formData == FormOf(item) && showForm
      ensures notification == old(notification) && isSubmitting == old(isSubmitting)
    {
      editingItem := Some(item);
      formData := FormOf(item);
      showForm := true;
    }

    /** `handleSubmit`: a blank name is refused before any call; otherwise the form is sent
        as an update of the item being edited or as a new item, and the form closes when the
        call resolves. */
    method HandleSubmit()
      modifies this, service
      ensures editingItem == old(editingItem) && formData == old(formData)
      ensures IsBlank(old(formData).nombre)
              ==> service.calls == old(service.calls) && showForm == old(showForm)
                  && notification == Some(Notice(Failure, NameRequired))
                  && isSubmitting == old(isSubmitting)
      ensures !IsBlank(old(formData).nombre)
              ==> var call := if editingItem.Some? then Update(editingItem.value.id, formData)
                              else Create(formData);
                  var reply := service.respond(|old(service.calls)|);
                  service.calls == old(service.calls) + [call] && !isSubmitting
                  && (reply.Ok? ==> !showForm
                                    && notification == Some(Notice(Success,
                                         if editingItem.Some? then UpdatedText else CreatedText)))
                  && (reply.Threw? ==> showForm == old(showForm)
                                       && notification == Some(Notice(Failure,
                                            FailureText(reply.message, SaveFailed))))
    {
      if IsBlank(formData.nombre) {
        notification := Some(Notice(Failure, NameRequired));
        return;
      }
      Save();
    }

    /** The `try` block of `handleSubmit`, with its `catch` and `finally`. */
    method Save()
      modifies this, service
      ensures editingItem == old(editingItem) && formData == old(formData)
      ensures var call := if editingItem.Some? then Update(editingItem.value.id, formData)
                          else Create(formData);
              var reply := service.respond(|old(service.calls)|);
              service.calls == old(service.calls) + [call] && !isSubmitting
              && (reply.Ok? ==> !showForm
                                && notification == Some(Notice(Success,
                                     if editingItem.Some? then UpdatedText else CreatedText)))
              && (reply.Threw? ==> showForm == old(showForm)
                                   && notification == Some(Notice(Failure,
                                        FailureText(reply.message, SaveFailed))))
    {
      isSubmitting := true;
      var reply;
      if editingItem.Some? {
        reply := service.Invoke(Update(editingItem.value.id, formData));
        if reply.Ok? {
          notification := Some(Notice(Success, UpdatedText));
        }
      } else {
        reply := service.Invoke(Create(formData));
        if reply.Ok? {
          notification := Some(Notice(Success, CreatedText));
        }
      }
      if reply.Ok? {
        showForm := false;
      } else {
        notification := Some(Notice(Failure, FailureText(reply.message, SaveFailed)));
      }
      isSubmitting := false;
    }

    /** `handleToggleArchive`; `confirmed` is the answer to the confirmation dialog. The service
        is asked for the opposite of the item's current `archivado`. */
    method HandleToggleArchive(item: CursoMateria, confirmed: bool)
      modifies this, service
      ensures showForm == old(showForm) && editingItem == old(editingItem)
      ensures formData == old(formData) && isSubmitting == old(isSubmitting)
      ensures !confirmed ==> service.calls == old(service.calls) && notification == old(notification)
      ensures confirmed
              ==> var reply := service.respond(|old(service.calls)|);
                  service.calls == old(service.calls) + [ToggleArchive(item.id, !item.archivado)]
                  && (reply.Ok? ==> notification == Some(Notice(Success,
                        "Curso/Materia " + (if item.archivado then "desarchivado" else "archivado")
                        + " exitosamente")))
                  && (reply.Threw? ==> notification == Some(Notice(Failure,
                        FailureText(reply.message, "Error al " + ArchiveAction(item.archivado)))))
    {
      var action := ArchiveAction(item.archivado);
      if !confirmed {
        return;
      }
      var reply := service.Invoke(ToggleArchive(item.id, !item.archivado));
      if reply.Ok? {
        var done := if item.archivado then "desarchivado" else "archivado";
        notification := Some(Notice(Success, "Curso/Materia " + done + " exitosamente"));
      } else {
        notification := Some(Notice(Failure, FailureText(reply.message, "Error al " + action)));
      }
    }
  }

  /** The requested `archivado` moves an item to the other view: once the service applies it,
      an item listed in one view (with any category and query) is listed in the other. */
  lemma ToggleMovesBetweenViews(items: seq<CursoMateria>, i: nat, showArchived: bool,
                                categoryFilter: string, searchQuery: string)
    requires i < |items|
    requires items[i] in FilteredData(items, showArchived, categoryFilter, searchQuery)
    ensures var moved := items[i].(archivado := !items[i].archivado);
            var after := items[i := moved];
            moved in FilteredData(after, !showArchived, categoryFilter, searchQuery)
            && moved !in FilteredData(after, showArchived, categoryFilter, searchQuery)
  {
    var moved := items[i].(archivado := !items[i].archivado);
    assert items[i := moved][i] == moved;
  }

  /** Editing an item and saving it unchanged sends an update of that item with its fields,
      unless its name is blank, in which case nothing is sent. */
  method EditThenSave(item: CursoMateria, respond: nat -> Reply) returns (sent: seq<ServiceCall>)
    ensures sent == if IsBlank(item.nombre) then [] else [Update(item.id, FormOf(item))]
  {
    var service := new CatalogService(respond);
    var page := new Page(service);
    page.HandleEdit(item);
    page.HandleSubmit();
    sent := service.calls;
  }

  /** Saving the empty form `handleCreate` opens sends nothing and reports the missing name. */
  method CreateThenSave(respond: nat -> Reply) returns (sent: seq<ServiceCall>, notice: Option<Notice>)
    ensures sent == [] && notice == Some(Notice(Failure, NameRequired))
  {
    var service := new CatalogService(respond);
    var page := new Page(service);
    page.HandleCreate();
    assert IsBlank(page.formData.nombre) by {
      BlankIffAllSpace(page.formData.nombre);
    }
    page.HandleSubmit();
    sent, notice := service.calls, page.notification;
  }
}
