/** The administrator's company management page (GestionEmpresas.jsx): a list
    of companies filtered by status, the approve/reject decision on pending
    requests, the status switch and the edit dialog for name and RUC. Server
    answers and the reason typed into the rejection prompt are inputs. */
module GestionEmpresas {
  import opened Common
  import opened ListOps
  import opened AuthContext

  /** A company as the list shows it. */
  datatype Empresa = Empresa(id_empresa: nat, nombre: string, ruc: string, email: string, estado: string)

  function EmpresaId(e: Empresa): nat {
    e.id_empresa
  }

  const Pending: string := "pendiente"
  const Active: string := "activo"
  const Rejected: string := "rechazado"

  /** A logged-in administrator: a user whose `id_rol` is 2. */
  predicate IsAdmin(user: Option<User>) {
    user.Some? && user.value.id_rol == 2
  }

  /** `user?.id_rol`: the role, or `undefined` when nobody is logged in. */
  function RoleOf(user: Option<User>): (role: Option<int>)
    ensures role.None? <==> user.None?
  {
    match user
    case None => None
    case Some(u) => Some(u.id_rol)
  }

  /** What the page renders: the access-denied notice or the management content. */
  datatype AdminView = AdminDenied | Management

  /** The route guard `if (user?.id_rol !== 2)`: the management content (filter,
      list, actions, edit dialog) appears exactly for a logged-in administrator;
      nobody logged in, or any other role, gets the access-denied notice. */
  function AdminViewFor(user: Option<User>): (v: AdminView)
    ensures v == Management <==> IsAdmin(user)
    ensures user.None? ==> v == AdminDenied
    ensures user.Some? && user.value.id_rol != 2 ==> v == AdminDenied
  {
    if RoleOf(user) != Some(2) then AdminDenied else Management
  }

  /** Right after a login the page shows the management content exactly when the
      logged-in user is an administrator. */
  lemma AdminViewAfterLogin(s: AuthState, data: LoginData)
    ensures AdminViewFor(Step(s, LoggedIn(data)).user) == Management <==> IsAdmin(data.user)
  {
  }

  /** After a final logout, whatever happened before, the page denies access. */
  lemma AdminDeniedAfterLogout(s: AuthState, events: seq<AuthEvent>, failed: bool)
    ensures AdminViewFor(Run(s, events + [LoggedOut(failed)]).user) == AdminDenied
  {
    LogoutLast(s, events, failed);
  }

  /** The body of the decision request. */
  datatype Payload = Payload(accion: string, motivo: Option<string>)

  /** What `handleGestionSolicitud` does before the request. */
  datatype Decision =
    | Send(payload: Payload)   // the request is sent
    | Cancelled                // the prompt was dismissed: nothing happens
    | BlankReason              // an empty or white-space reason: alert, no request

  /** The payload of a decision. `accion` is the button's action and `prompt`
      the prompt's answer (`None`: dismissed), asked only when rejecting. */
  function GestionPayload(accion: string, prompt: Option<string>): (r: Decision)
    ensures accion != "rechazar" ==> r == Send(Payload(accion, None))
    ensures accion == "rechazar" ==> (r == Cancelled <==> prompt.None?)
    ensures accion == "rechazar" ==> (r == BlankReason <==> prompt.Some? && AllSpace(prompt.value))
    ensures r.Send? ==> r.payload.accion == accion && (r.payload.motivo.Some? <==> accion == "rechazar")
    ensures r.Send? && accion == "rechazar" ==> r.payload.motivo == prompt && !AllSpace(prompt.value)
  {
    if accion == "rechazar" then
      match prompt
      case None => Cancelled
      case Some(motivo) =>
        TrimEmptyIffBlank(motivo);
        if Trim(motivo) == "" then BlankReason
        else Send(Payload(accion, Some(motivo)))
    else Send(Payload(accion, None))
  }

  /** The edit dialog's form. */
  datatype EditForm = EditForm(nombre: string, ruc: string)

  /** The dialog starts from the company's name and RUC, or empty without one. */
  function InitialEditForm(e: Option<Empresa>): (f: EditForm)
    ensures e.Some? ==> f.nombre == e.value.nombre && f.ruc == e.value.ruc
    ensures e.None? ==> f == EditForm("", "")
  {
    if e.Some? then EditForm(e.value.nombre, e.value.ruc) else EditForm("", "")
  }

  /** `{ ...empresa, ...formData }`: the form overrides name and RUC and nothing else. */
  function Merged(e: Empresa, f: EditForm): (r: Empresa)
    ensures r.nombre == f.nombre && r.ruc == f.ruc
    ensures r.id_empresa == e.id_empresa && r.email == e.email && r.estado == e.estado
  {
    e.(nombre := f.nombre, ruc := f.ruc)
  }

  /** Saving the untouched form gives back the company as it was. */
  lemma MergedUntouched(e: Empresa)
    ensures Merged(e, InitialEditForm(Some(e))) == e
  {
  }

  /** The buttons a row offers. */
  datatype Action = Approve | Reject | Edit | SetStatus(estado: string)

  /** The actions column: a pending company can be approved or rejected, an
      active one edited or deactivated, a rejected one edited or reactivated;
      any other status offers nothing. */
  function ActionsFor(estado: string): (r: seq<Action>)
    ensures Approve in r <==> estado == Pending
    ensures Reject in r <==> estado == Pending
    ensures Edit in r <==> estado == Active || estado == Rejected
    ensures forall a :: a in r && a.SetStatus? ==> a.estado != estado && (a.estado == Active || a.estado == Rejected)
    ensures r == [] <==> estado != Pending && estado != Active && estado != Rejected
  {
    if estado == Pending then [Approve, Reject]
    else if estado == Active then [Edit, SetStatus(Rejected)]
    else if estado == Rejected then [Edit, SetStatus(Active)]
    else []
  }

  /** Switching the status twice with the offered button returns to the start. */
  lemma StatusSwitchTwice(estado: string)
    requires estado == Active || estado == Rejected
    ensures var a := ActionsFor(estado)[1];
      a.SetStatus? && ActionsFor(a.estado)[1] == SetStatus(estado)
  {
  }

  /** The badge colour: green for active, yellow for pending, red otherwise. */
  datatype Badge = Green | Yellow | Red

  function BadgeFor(estado: string): (b: Badge)
    ensures b == Green <==> estado == Active
    ensures b == Yellow <==> estado == Pending
  {
    if estado == Active then Green else if estado == Pending then Yellow else Red
  }

  /** Saving an edited company whose id is unique in the list: the list keeps its
      length, the edited entry gets the form's name and RUC and keeps its id,
      e-mail and status, and every other entry is untouched. */
  lemma SaveEditedEmpresa(s: seq<Empresa>, i: int, f: EditForm)
    requires 0 <= i < |s|
    requires forall j :: 0 <= j < |s| && j != i ==> s[j].id_empresa != s[i].id_empresa
    ensures var r := Replaced(s, EmpresaId, Merged(s[i], f));
      |r| == |s| && r[i] == Merged(s[i], f) &&
      forall j :: 0 <= j < |s| && j != i ==> r[j] == s[j]
  {
  }

  /** The page's state. */
  class AdminPage {
    var empresas: seq<Empresa>
    var isLoading: bool
    var error: Option<string>
    var filtroEstado: string
    var editingEmpresa: Option<Empresa>

    /** The filter starts on pending requests. */
    constructor ()
      ensures empresas == [] && isLoading && error.None?
      ensures filtroEstado == Pending && editingEmpresa.None?
    {
      empresas := [];
      isLoading := true;
      error := None;
      filtroEstado := Pending;
      editingEmpresa := None;
    }

    /** `fetchEmpresas` with the backend's answer: the list, or the error's message. */
    method FetchEmpresas(response: Option<seq<Empresa>>, failure: string)
      modifies this`empresas, this`isLoading, this`error
      ensures response.Some? ==> empresas == response.value && error.None?
      ensures response.None? ==> empresas == old(empresas) && error == Some(failure)
      ensures !isLoading
    {
      isLoading := true;
      error := None;
      if response.Some? {
        empresas := response.value;
      } else {
        error := Some(failure);
      }
      isLoading := false;
    }

    /** `handleSaveEmpresa`: replace the entries with the saved id and close the dialog. */
    method SaveEmpresa(updated: Empresa)
      modifies this`empresas, this`editingEmpresa
      ensures empresas == Replaced(old(empresas), EmpresaId, updated)
      ensures editingEmpresa.None?
    {
      empresas := Replaced(empresas, EmpresaId, updated);
      editingEmpresa := None;
    }

    /** The edit button. */
    method OpenEditor(e: Empresa)
      modifies this`editingEmpresa
      ensures editingEmpresa == Some(e)
    {
      editingEmpresa := Some(e);
    }

    /** The dialog's close button. */
    method CloseEditor()
      modifies this`editingEmpresa
      ensures editingEmpresa.None?
    {
      editingEmpresa := None;
    }
  }
}
