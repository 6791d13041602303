/** The category editor of the administration area. It keeps the category
    list (mirrored from the shared store), a draft record bound to the input
    fields, the row being edited, the modal and add-panel flags and a loading
    flag that drives a blocking spinner. Each create, update or delete is an
    asynchronous call to the category service; here it is split into the
    moment the request is issued and the moment its outcome arrives, and the
    service's answer is a parameter of the second step. */
module CategoryForm {
  import opened Common

  /** A category image: nothing selected (`null`/`undefined`), a file picked
      in the browser but not uploaded, or the reference string of a saved
      image. */
  datatype Image = NoImage | LocalFile(fileName: string) | Remote(url: string)

  /** A category record, also the shape of the draft. The description is
      `undefined` after the modal is closed. */
  datatype Category = Category(id: Key, name: string, image: Image, descripcion: Option<string>)

  /** The multipart body of a create call. */
  datatype CreateBody = CreateBody(name: string, descripcion: string, image: Image)

  /** The multipart body of an update call: the draft's fields as they are. */
  datatype UpdateBody = UpdateBody(name: string, image: Image, descripcion: Option<string>)

  /** The request in flight, if any. An update and a delete remember the list
      their handler saw when it was invoked, since their results are computed
      from it. */
  datatype Request =
    | Idle
    | Creating(body: CreateBody)
    | Updating(id: Key, fields: UpdateBody, seen: seq<Category>)
    | Deleting(id: Key, seen: seq<Category>)

  /** The settled promise of a service call: its value, or a rejection whose
      error may carry the server's `response.data` (`None` when the error has
      no `response` at all). */
  datatype Outcome<+T> = Success(value: T) | Failure(responseData: Option<string>)

  /** A change event of an input: its `name` attribute, its value and its
      selected files. */
  datatype InputEvent = InputEvent(name: string, value: string, files: seq<string>)

  const MissingFieldsAlert: string := "Por favor, complete todos los campos"
  const DuplicateNameAlert: string :=
    "Ya existe una categoria con ese nombre. Por favor, elija un nombre diferente."
  const CreateFailedAlert: string := "Error al agregar la categoría"
  const UpdateFailedAlert: string := "Error al editar la categoría"
  const DeleteFailedAlert: string := "Error al eliminar la categoría"

  /** The draft after a successful create or update. */
  const EmptyDraft: Category := Category(Text(""), "", NoImage, Some(""))

  /** The draft after the modal is closed: only `name` and `image`, both
      empty strings, so the id and the description are `undefined`. */
  const ClosedDraft: Category := Category(Undefined, "", Remote(""), None)

  // ---------------------------------------------------------------------
  // Pure parts of the handlers

  /** JavaScript truthiness of an image value: an object is truthy, a string
      exactly when it is not empty, `null` never. */
  predicate IsTruthy(img: Image)
  {
    match img
    case NoImage => false
    case LocalFile(_) => true
    case Remote(url) => url != ""
  }

  /** `newCatalogo.name && newCatalogo.image`. */
  predicate HasRequiredFields(d: Category)
  {
    d.name != "" && IsTruthy(d.image)
  }

  /** The duplicate check of the add handler as written: some category
      other than the draft (by id) has exactly the draft's name. */
  predicate IsDuplicateName(cs: seq<Category>, d: Category)
  {
    exists i :: 0 <= i < |cs| && cs[i].name == d.name && cs[i].id != d.id
  }

  /** The draft passes both checks of the add handler as written. */
  predicate AddAccepted(cs: seq<Category>, d: Category)
  {
    HasRequiredFields(d) && !IsDuplicateName(cs, d)
  }

  /** The duplicate check an add needs: some category already has exactly
      the draft's name, whatever its id. A new category is never one of the
      listed ones, so none of them is exempt. */
  predicate NameTaken(cs: seq<Category>, d: Category)
  {
    exists i :: 0 <= i < |cs| && cs[i].name == d.name
  }

  /** The draft passes the required-field check and the corrected duplicate
      check. */
  predicate AddAllowed(cs: seq<Category>, d: Category)
  {
    HasRequiredFields(d) && !NameTaken(cs, d)
  }

  /** The create body: name and image as they are, the description when it is
      a non-empty string and a single space otherwise. */
  function CreateBodyOf(d: Category): (b: CreateBody)
    ensures b.name == d.name && b.image == d.image
    ensures b.descripcion != ""
    ensures d.descripcion.Some? && d.descripcion.value != "" ==> b.descripcion == d.descripcion.value
    ensures d.descripcion.None? || d.descripcion.value == "" ==> b.descripcion == " "
  {
    var desc := match d.descripcion case Some(s) => s case None => "";
    CreateBody(d.name, if desc != "" then desc else " ", d.image)
  }

  /** The update body: the draft's fields, unvalidated. */
  function UpdateBodyOf(d: Category): UpdateBody
  {
    UpdateBody(d.name, d.image, d.descripcion)
  }

  /** `handleInputChange`: the field named by the input takes its value (the
      image input takes its first file, `undefined` when none is selected);
      an input with any other name leaves the modelled fields as they are. */
  function ApplyInput(d: Category, e: InputEvent): Category
  {
    if e.name == "image" then d.(image := if e.files == [] then NoImage else LocalFile(e.files[0]))
    else if e.name == "name" then d.(name := e.value)
    else if e.name == "descripcion" then d.(descripcion := Some(e.value))
    else if e.name == "id" then d.(id := Text(e.value))
    else d
  }

  /** The alert text of a failed create: the server's `response.data` when it
      is a non-empty string, the generic message otherwise. */
  function CreateFailureText(data: string): (t: string)
    ensures t != ""
    ensures data != "" ==> t == data
    ensures data == "" ==> t == CreateFailedAlert
  {
    if data != "" then data else CreateFailedAlert
  }

  /** `categorias.map(f => f.id === rec.id ? rec : f)`: every category with the
      record's id becomes the record. */
  function ReplaceById(cs: seq<Category>, rec: Category): (r: seq<Category>)
    ensures |r| == |cs|
    ensures forall i :: 0 <= i < |cs| ==> r[i].id == cs[i].id
    ensures forall i :: 0 <= i < |cs| && cs[i].id != rec.id ==> r[i] == cs[i]
    ensures forall i :: 0 <= i < |cs| && cs[i].id == rec.id ==> r[i] == rec
  {
    seq(|cs|, i requires 0 <= i < |cs| => if cs[i].id == rec.id then rec else cs[i])
  }

  /** `categorias.filter(f => f.id !== id)`: the categories with another id,
      in their order, none with the removed id. */
  function RemoveById(cs: seq<Category>, id: Key): (r: seq<Category>)
    ensures IsSubsequence(r, cs)
    ensures forall i :: 0 <= i < |r| ==> r[i] in cs && r[i].id != id
    ensures forall i :: 0 <= i < |cs| && cs[i].id != id ==> cs[i] in r
  {
    Filter(cs, (c: Category) => c.id != id)
  }

  /** Removing by id keeps every category with another id as many times as
      it occurs and drops every occurrence of the id. */
  lemma RemoveByIdCount(cs: seq<Category>, id: Key, c: Category)
    ensures multiset(RemoveById(cs, id))[c] == if c.id != id then multiset(cs)[c] else 0
  {
    FilterCount(cs, (c: Category) => c.id != id, c);
  }

  /** No two categories share an id. */
  ghost predicate UniqueIds(cs: seq<Category>)
  {
    forall i, j :: 0 <= i < j < |cs| ==> cs[i].id != cs[j].id
  }

  /** No two categories share a name. */
  ghost predicate UniqueNames(cs: seq<Category>)
  {
    forall i, j :: 0 <= i < j < |cs| ==> cs[i].name != cs[j].name
  }

  /** Replacing by id twice with the same record is replacing once. */
  lemma ReplaceByIdIdempotent(cs: seq<Category>, rec: Category)
    ensures ReplaceById(ReplaceById(cs, rec), rec) == ReplaceById(cs, rec)
  {
    var r := ReplaceById(cs, rec);
    assert forall i :: 0 <= i < |r| ==> ReplaceById(r, rec)[i] == r[i];
  }

  /** A record whose id is in no category leaves the list unchanged; the ids,
      and with them their uniqueness, are the same after any replacement. */
  lemma ReplaceByIdKeepsIds(cs: seq<Category>, rec: Category)
    ensures (forall i :: 0 <= i < |cs| ==> cs[i].id != rec.id) ==> ReplaceById(cs, rec) == cs
    ensures UniqueIds(cs) ==> UniqueIds(ReplaceById(cs, rec))
  {
    var r := ReplaceById(cs, rec);
    if forall i :: 0 <= i < |cs| ==> cs[i].id != rec.id {
      assert forall i :: 0 <= i < |cs| ==> r[i] == cs[i];
    }
  }

  /** Removing an id that no category carries leaves the list unchanged, and
      removing the same id a second time changes nothing. */
  lemma RemoveByIdAbsentAndIdempotent(cs: seq<Category>, id: Key)
    ensures (forall i :: 0 <= i < |cs| ==> cs[i].id != id) ==> RemoveById(cs, id) == cs
    ensures RemoveById(RemoveById(cs, id), id) == RemoveById(cs, id)
  {
    FilterKeepsAll(cs, (c: Category) => c.id != id);
    FilterIdempotent(cs, (c: Category) => c.id != id);
  }

  /** Removing by id keeps unique names and unique ids unique. */
  lemma RemoveByIdKeepsUnique(cs: seq<Category>, id: Key)
    ensures UniqueIds(cs) ==> UniqueIds(RemoveById(cs, id))
    ensures UniqueNames(cs) ==> UniqueNames(RemoveById(cs, id))
  {
    var keep := (c: Category) => c.id != id;
    if UniqueIds(cs) {
      FilterKeepsPairwise(cs, keep, (x: Category, y: Category) => x.id != y.id);
    }
    if UniqueNames(cs) {
      FilterKeepsPairwise(cs, keep, (x: Category, y: Category) => x.name != y.name);
    }
  }

  /** The corrected check rejects whatever the check as written rejects,
      and on a draft whose id no category carries (the draft of a fresh add)
      the two agree. */
  lemma DuplicateChecksAgree(cs: seq<Category>, d: Category)
    ensures IsDuplicateName(cs, d) ==> NameTaken(cs, d)
    ensures (forall i :: 0 <= i < |cs| ==> cs[i].id != d.id) ==>
              (IsDuplicateName(cs, d) <==> NameTaken(cs, d))
  {
  }

  /** The check as written lets a duplicate in: once a listed category has
      been copied into the draft by the edit handler, the add handler
      accepts that draft, and appending the created record, which carries
      the draft's name, yields two categories with the same name. */
  lemma AddAsWrittenDuplicatesEditedRow(cs: seq<Category>, k: int, created: Category)
    requires UniqueNames(cs) && 0 <= k < |cs| && HasRequiredFields(cs[k])
    requires created.name == cs[k].name
    ensures AddAccepted(cs, cs[k])
    ensures !UniqueNames(cs + [created])
  {
    var r := cs + [created];
    assert r[k] == cs[k] && r[|cs|] == created;
  }

  /** An add accepted by the corrected check whose server record keeps the
      draft's name keeps the names unique, whatever the draft's id. */
  lemma AddKeepsNamesUnique(cs: seq<Category>, d: Category, created: Category)
    requires UniqueNames(cs) && AddAllowed(cs, d)
    requires created.name == d.name
    ensures UniqueNames(cs + [created])
  {
    var r := cs + [created];
    forall i, j | 0 <= i < j < |r| ensures r[i].name != r[j].name {
      if j == |cs| {
        assert r[i] == cs[i];
      } else {
        assert r[i] == cs[i] && r[j] == cs[j];
      }
    }
  }

  // ---------------------------------------------------------------------
  // The component state

  class CategoryEditor {
    /** `state.categorias` of the shared store. */
    var shared: seq<Category>
    /** The component's own `categorias`, resynchronised from the store. */
    var categorias: seq<Category>
    /** `newCatalogo`, the record bound to the input fields. */
    var draft: Category
    /** `editingCatalogo`, `null` when no row is being edited. */
    var editing: Option<Category>
    var isModalOpen: bool
    var isOpenInputs: bool
    var loading: bool
    /** The service call in flight. */
    var pending: Request
    /** The text of the last error alert shown. */
    var alert: Option<string>

    /** The spinner is on exactly while a call is in flight, and the local
        list is the shared one. */
    ghost predicate Valid()
      reads this
    {
      (loading <==> !pending.Idle?) && categorias == shared
    }

    /** Mounting with the store's list. */
    constructor (store: seq<Category>)
      ensures Valid()
      ensures shared == store && categorias == store
      ensures draft == EmptyDraft && editing == None
      ensures !isModalOpen && !isOpenInputs && !loading && pending == Idle && alert == None
    {
      shared, categorias := store, store;
      draft := EmptyDraft;
      editing := None;
      isModalOpen, isOpenInputs, loading := false, false, false;
      pending := Idle;
      alert := None;
    }

    /** Another component dispatches a new list to the store; the effect
        copies it into the local list. */
    method StoreChanged(store: seq<Category>)
      requires Valid()
      modifies this`shared, this`categorias
      ensures Valid() && shared == store && categorias == store
    {
      shared := store;
      categorias := shared;
    }

    /** `handleInputChange`. */
    method HandleInputChange(e: InputEvent)
      modifies this`draft
      ensures draft == ApplyInput(old(draft), e)
    {
      draft := ApplyInput(draft, e);
    }

    /** `handleImageChange`: a selected file replaces the image; an empty
        selection changes nothing. */
    method HandleImageChange(files: seq<string>)
      modifies this`draft
      ensures files != [] ==> draft == old(draft).(image := LocalFile(files[0]))
      ensures files == [] ==> draft == old(draft)
    {
      if files != [] {
        draft := draft.(image := LocalFile(files[0]));
      }
    }

    /** `handleAddCatalog` up to the service call. A draft without a name or
        without an image, or with a name a category already has, is rejected
        with an alert: no call is made and nothing else changes. Otherwise
        the spinner turns on and the create call is issued. The duplicate
        check is the one the handler has, which exempts the category whose
        id the draft carries (see `AddAsWrittenDuplicatesEditedRow`). */
    method HandleAddCatalog()
      requires Valid() && !loading
      modifies this`loading, this`pending, this`alert
      ensures Valid()
      ensures !HasRequiredFields(draft) ==>
                pending == Idle && !loading && alert == Some(MissingFieldsAlert)
      ensures HasRequiredFields(draft) && IsDuplicateName(categorias, draft) ==>
                pending == Idle && !loading && alert == Some(DuplicateNameAlert)
      ensures AddAccepted(categorias, draft) ==>
                pending == Creating(CreateBodyOf(draft)) && loading && alert == old(alert)
    {
      if !HasRequiredFields(draft) {
        alert := Some(MissingFieldsAlert);
        return;
      }
      if IsDuplicateName(categorias, draft) {
        alert := Some(DuplicateNameAlert);
        return;
      }
      loading := true;
      pending := Creating(CreateBodyOf(draft));
    }

    /** The create call settles. On success the server's record is appended
        to the current list, which goes to the store too, the draft is reset
        and the add panel closes. On failure the alert shows the server's
        message or the generic one; an error without a response makes the
        handler throw before alerting. The spinner turns off either way. */
    method CompleteAdd(o: Outcome<Category>)
      requires Valid() && pending.Creating?
      modifies this
      ensures Valid() && !loading && pending == Idle
      ensures editing == old(editing) && isModalOpen == old(isModalOpen)
      ensures o.Success? ==>
                categorias == old(categorias) + [o.value] &&
                draft == EmptyDraft && !isOpenInputs && alert == old(alert)
      ensures o.Failure? ==>
                categorias == old(categorias) && draft == old(draft) && isOpenInputs == old(isOpenInputs) &&
                alert == (match o.responseData
                          case None => old(alert)
                          case Some(data) => Some(CreateFailureText(data)))
    {
      match o {
        case Success(created) =>
          var updated := categorias + [created];
          shared := updated;
          categorias := updated;
          draft := EmptyDraft;
          isOpenInputs := false;
        case Failure(data) =>
          if data.Some? {
            alert := Some(CreateFailureText(data.value));
          }
      }
      loading := false;
      pending := Idle;
    }

    /** `handleEditCatalog`: the row becomes the one being edited and its
        fields fill the draft. */
    method HandleEditCatalog(c: Category)
      modifies this`editing, this`draft
      ensures editing == Some(c) && draft == c
    {
      editing := Some(c);
      draft := Category(c.id, c.name, c.image, c.descripcion);
    }

    /** `handleSaveEdit` up to the service call: the spinner turns on and the
        update is issued for the draft's id with the draft's fields, with no
        validation of the name or the image. */
    method HandleSaveEdit()
      requires Valid() && !loading
      modifies this`loading, this`pending
      ensures Valid() && loading
      ensures pending == Updating(draft.id, UpdateBodyOf(draft), categorias)
    {
      loading := true;
      pending := Updating(draft.id, UpdateBodyOf(draft), categorias);
    }

    /** The update call settles. On success every category of the list the
        handler saw whose id is the returned record's becomes that record;
        the result goes to the store and so to the local list; editing ends
        and the draft is reset. On failure only a generic alert is shown. The
        spinner turns off either way. */
    method CompleteSaveEdit(o: Outcome<Category>)
      requires Valid() && pending.Updating?
      modifies this
      ensures Valid() && !loading && pending == Idle
      ensures isModalOpen == old(isModalOpen) && isOpenInputs == old(isOpenInputs)
      ensures o.Success? ==>
                categorias == ReplaceById(old(pending).seen, o.value) &&
                editing == None && draft == EmptyDraft && alert == old(alert)
      ensures o.Failure? ==>
                categorias == old(categorias) && editing == old(editing) && draft == old(draft) &&
                alert == Some(UpdateFailedAlert)
    {
      match o {
        case Success(rec) =>
          var updated := ReplaceById(pending.seen, rec);
          shared := updated;
          categorias := shared;
          editing := None;
          draft := EmptyDraft;
        case Failure(_) =>
          alert := Some(UpdateFailedAlert);
      }
      loading := false;
      pending := Idle;
    }

    /** `handleDeleteFeature(id)`, after the user confirmed, up to the service
        call: the spinner turns on and the delete is issued. */
    method HandleDeleteFeature(id: Key)
      requires Valid() && !loading
      modifies this`loading, this`pending
      ensures Valid() && loading && pending == Deleting(id, categorias)
    {
      loading := true;
      pending := Deleting(id, categorias);
    }

    /** The delete call settles. On success the categories with that id are
        removed from the list the handler saw, in the store and locally. On
        failure only a generic alert is shown. The spinner turns off either
        way. */
    method CompleteDelete(o: Outcome<()>)
      requires Valid() && pending.Deleting?
      modifies this
      ensures Valid() && !loading && pending == Idle
      ensures draft == old(draft) && editing == old(editing)
      ensures isModalOpen == old(isModalOpen) && isOpenInputs == old(isOpenInputs)
      ensures o.Success? ==> categorias == RemoveById(old(pending).seen, old(pending).id) && alert == old(alert)
      ensures o.Failure? ==> categorias == old(categorias) && alert == Some(DeleteFailedAlert)
    {
      match o {
        case Success(_) =>
          var updated := RemoveById(pending.seen, pending.id);
          shared := updated;
          categorias := updated;
        case Failure(_) =>
          alert := Some(DeleteFailedAlert);
      }
      loading := false;
      pending := Idle;
    }

    /** `openModal`. */
    method OpenModal()
      modifies this`isModalOpen
      ensures isModalOpen
    {
      isModalOpen := true;
    }

    /** `openInputs`: toggles the add panel. */
    method OpenInputs()
      modifies this`isOpenInputs
      ensures isOpenInputs == !old(isOpenInputs)
    {
      isOpenInputs := !isOpenInputs;
    }

    /** `closeModal`: closes the modal and the add panel, ends editing and
        leaves only an empty name and image in the draft. */
    method CloseModal()
      modifies this`isModalOpen, this`isOpenInputs, this`editing, this`draft
      ensures !isModalOpen && !isOpenInputs && editing == None && draft == ClosedDraft
    {
      isModalOpen := false;
      isOpenInputs := false;
      editing := None;
      draft := ClosedDraft;
    }
  }

  // ---------------------------------------------------------------------
  // Clients: what the contracts let a caller conclude

  /** Toggling the add panel twice restores it. */
  method ToggleTwice(f: CategoryEditor)
    modifies f
    ensures f.isOpenInputs == old(f.isOpenInputs)
  {
    f.OpenInputs();
    f.OpenInputs();
  }

  /** With no categories, adding "Beach" with a picked file issues a create
      call whose body has the single-space description, and on success the
      list is exactly the server's record. */
  method AddScenario(created: Category)
  {
    var f := new CategoryEditor([]);
    f.HandleInputChange(InputEvent("name", "Beach", []));
    f.HandleImageChange(["beach.png"]);
    assert f.draft == Category(Text(""), "Beach", LocalFile("beach.png"), Some(""));
    f.HandleAddCatalog();
    assert f.loading && f.pending == Creating(CreateBody("Beach", " ", LocalFile("beach.png")));
    f.CompleteAdd(Success(created));
    assert f.categorias == [created] && f.shared == [created] && !f.loading;
  }

  /** Editing a listed row and then opening the add panel leaves that row,
      id included, in the draft. The add handler accepts it, and once the
      create call succeeds the list holds two categories with the same name. */
  method EditThenAddScenario(c: Category, rec: Category)
    requires HasRequiredFields(c) && rec.name == c.name
  {
    var f := new CategoryEditor([c]);
    f.OpenModal();
    f.HandleEditCatalog(c);
    f.OpenInputs();
    assert f.draft == c && f.isOpenInputs && !f.loading;
    assert !IsDuplicateName([c], c);
    f.HandleAddCatalog();
    assert f.loading && f.pending == Creating(CreateBodyOf(c));
    f.CompleteAdd(Success(rec));
    assert f.categorias == [c, rec];
    assert f.categorias[0].name == f.categorias[1].name;
    assert !UniqueNames(f.categorias);
  }

  /** A failed delete leaves the list as it was, with the spinner off. */
  method FailedDeleteScenario(cs: seq<Category>, id: Key)
  {
    var f := new CategoryEditor(cs);
    f.HandleDeleteFeature(id);
    assert f.loading;
    f.CompleteDelete(Failure(None));
    assert f.categorias == cs && !f.loading && f.alert == Some(DeleteFailedAlert);
  }
}
