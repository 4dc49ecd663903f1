/** A company's venues page (MisSedes.jsx): the list of venues and the dialogs
    that create, edit and delete one. The list is changed only from the
    dialogs' success callbacks, after the server has accepted the change;
    server answers are inputs. Coordinates are kept as reals. */
module MisSedes {
  import opened Common
  import opened ListOps

  /** A venue; a coordinate is `None` when the server has none (null). */
  datatype Sede = Sede(
    id_sede: nat,
    nombre_sede: string,
    ubicacion_texto: string,
    latitud: Option<real>,
    longitud: Option<real>)

  function SedeId(s: Sede): nat {
    s.id_sede
  }

  /** The dialog's form; an empty coordinate field is `None`. */
  datatype SedeForm = SedeForm(
    nombre_sede: string,
    ubicacion_texto: string,
    latitud: Option<real>,
    longitud: Option<real>)

  /** `sede.latitud || ''`: a missing coordinate and the falsy coordinate 0
      both give an empty field. */
  function CoordinateField(c: Option<real>): (r: Option<real>)
    ensures r.None? <==> c.None? || c.value == 0.0
    ensures r.Some? ==> r == c
  {
    if c.Some? && c.value != 0.0 then c else None
  }

  /** The dialog's initial form: the venue's fields when editing, empty when creating. */
  function InitialForm(sede: Option<Sede>): (f: SedeForm)
    ensures sede.None? ==> f == SedeForm("", "", None, None)
    ensures sede.Some? ==>
      f.nombre_sede == sede.value.nombre_sede && f.ubicacion_texto == sede.value.ubicacion_texto &&
      f.latitud == CoordinateField(sede.value.latitud) && f.longitud == CoordinateField(sede.value.longitud)
  {
    match sede
    case None => SedeForm("", "", None, None)
    case Some(s) => SedeForm(s.nombre_sede, s.ubicacion_texto, CoordinateField(s.latitud), CoordinateField(s.longitud))
  }

  /** Editing a venue with non-zero coordinates starts from exactly its data. */
  lemma InitialFormOfVenue(s: Sede)
    requires s.latitud != Some(0.0) && s.longitud != Some(0.0)
    ensures InitialForm(Some(s)) == SedeForm(s.nombre_sede, s.ubicacion_texto, s.latitud, s.longitud)
  {
  }

  /** Which request the dialog sends: an update of the venue being edited, or a creation. */
  datatype SedeRequest = UpdateSede(id_sede: nat, form: SedeForm) | CreateSede(form: SedeForm)

  /** `handleSaveSede` on a list: replace by id when editing, append when creating. */
  function SavedList(sedes: seq<Sede>, editing: bool, saved: Sede): (r: seq<Sede>)
    ensures editing ==> r == Replaced(sedes, SedeId, saved)
    ensures !editing ==> r == sedes + [saved]
  {
    if editing then Replaced(sedes, SedeId, saved) else sedes + [saved]
  }

  /** After a save the saved venue is on the list, unless an edit came back
      with an id no listed venue has; the list grows by one exactly when creating. */
  lemma SavedVenueListed(sedes: seq<Sede>, editing: bool, saved: Sede)
    ensures |SavedList(sedes, editing, saved)| == |sedes| + (if editing then 0 else 1)
    ensures saved in SavedList(sedes, editing, saved) <==>
      !editing || exists i :: 0 <= i < |sedes| && sedes[i].id_sede == saved.id_sede
  {
    var r := SavedList(sedes, editing, saved);
    if editing {
      if exists i :: 0 <= i < |sedes| && sedes[i].id_sede == saved.id_sede {
        var i :| 0 <= i < |sedes| && sedes[i].id_sede == saved.id_sede;
        assert r[i] == saved;
      }
    } else {
      assert r[|sedes|] == saved;
    }
  }

  /** A venue created with an id no listed venue has, and then deleted, leaves
      the list exactly as it was. */
  lemma CreateThenDelete(sedes: seq<Sede>, created: Sede)
    requires forall i :: 0 <= i < |sedes| ==> sedes[i].id_sede != created.id_sede
    ensures Removed(SavedList(sedes, false, created), SedeId, created.id_sede) == sedes
  {
    RemovedAppend(sedes, [created], SedeId, created.id_sede);
    RemovedNoMatch(sedes, SedeId, created.id_sede);
    assert Removed([created], SedeId, created.id_sede) == [];
  }

  /** Deleting a venue keeps every other venue as often as it occurred, and
      removes all entries carrying its id. */
  lemma DeleteKeepsOthers(sedes: seq<Sede>, target: Sede, other: Sede)
    requires other.id_sede != target.id_sede
    ensures multiset(Removed(sedes, SedeId, target.id_sede))[other] == multiset(sedes)[other]
    ensures target !in Removed(sedes, SedeId, target.id_sede)
  {
    RemovedKeepsOthers(sedes, SedeId, target.id_sede, other);
  }

  /** The create/edit dialog. */
  class SedeDialog {
    const sede: Option<Sede>
    var formData: SedeForm
    var isSubmitting: bool

    constructor (sede: Option<Sede>)
      ensures this.sede == sede && formData == InitialForm(sede) && !isSubmitting
    {
      this.sede := sede;
      formData := InitialForm(sede);
      isSubmitting := false;
    }

    /** `handleSubmit`: the request sent, and the venue handed to the page's
        `onSave` (`None`: the server refused, an alert is shown and nothing is
        handed on). `response` is the server's answer. */
    method HandleSubmit(response: Option<Sede>) returns (request: SedeRequest, saved: Option<Sede>)
      modifies this`isSubmitting
      ensures request == if sede.Some? then UpdateSede(sede.value.id_sede, formData) else CreateSede(formData)
      ensures saved == response && !isSubmitting
    {
      isSubmitting := true;
      if sede.Some? {
        request := UpdateSede(sede.value.id_sede, formData);
      } else {
        request := CreateSede(formData);
      }
      saved := response;
      isSubmitting := false;
    }
  }

  /** The delete confirmation dialog. */
  class DeleteDialog {
    const sede: Sede
    var isDeleting: bool

    constructor (sede: Sede)
      ensures this.sede == sede && !isDeleting
    {
      this.sede := sede;
      isDeleting := false;
    }

    /** `handleDelete` with the server's answer: on success the page is told
        (and the buttons stay disabled), on failure the buttons are enabled
        again and the page is not told. */
    method HandleDelete(ok: bool) returns (confirmed: bool)
      modifies this`isDeleting
      ensures confirmed == ok && isDeleting == ok
    {
      isDeleting := true;
      if ok {
        confirmed := true;
      } else {
        isDeleting := false;
        confirmed := false;
      }
    }
  }

  /** The page's state. */
  class VenuesPage {
    var sedes: seq<Sede>
    var isLoading: bool
    var error: Option<string>
    var isCreateModalOpen: bool
    var editingSede: Option<Sede>
    var deletingSede: Option<Sede>

    constructor ()
      ensures sedes == [] && isLoading && error.None?
      ensures !isCreateModalOpen && editingSede.None? && deletingSede.None?
    {
      sedes := [];
      isLoading := true;
      error := None;
      isCreateModalOpen := false;
      editingSede := None;
      deletingSede := None;
    }

    /** `fetchSedes` with the backend's answer: the list, or the error's message. */
    method FetchSedes(response: Option<seq<Sede>>, failure: string)
      modifies this`sedes, this`isLoading, this`error
      ensures response.Some? ==> sedes == response.value && error.None?
      ensures response.None? ==> sedes == old(sedes) && error == Some(failure)
      ensures !isLoading
    {
      isLoading := true;
      error := None;
      if response.Some? {
        sedes := response.value;
      } else {
        error := Some(failure);
      }
      isLoading := false;
    }

    /** `handleSaveSede`: both dialogs are closed afterwards. */
    method SaveSede(saved: Sede)
      modifies this`sedes, this`isCreateModalOpen, this`editingSede
      ensures sedes == SavedList(old(sedes), old(editingSede).Some?, saved)
      ensures !isCreateModalOpen && editingSede.None?
    {
      if editingSede.Some? {
        sedes := Replaced(sedes, SedeId, saved);
      } else {
        sedes := sedes + [saved];
      }
      isCreateModalOpen := false;
      editingSede := None;
    }

    /** `handleDeleteSede`, called only while the delete dialog is showing a venue. */
    method DeleteSede()
      requires deletingSede.Some?
      modifies this`sedes, this`deletingSede
      ensures sedes == Removed(old(sedes), SedeId, old(deletingSede).value.id_sede)
      ensures deletingSede.None?
    {
      sedes := Removed(sedes, SedeId, deletingSede.value.id_sede);
      deletingSede := None;
    }

    /** The delete dialog's outcome reaches the list only on success. */
    method ConfirmDelete(dialog: DeleteDialog, ok: bool)
      requires deletingSede == Some(dialog.sede)
      modifies this`sedes, this`deletingSede, dialog`isDeleting
      ensures ok ==> sedes == Removed(old(sedes), SedeId, dialog.sede.id_sede) && deletingSede.None?
      ensures !ok ==> sedes == old(sedes) && deletingSede == old(deletingSede) && !dialog.isDeleting
    {
      var confirmed := dialog.HandleDelete(ok);
      if confirmed {
        DeleteSede();
      }
    }
  }
}
