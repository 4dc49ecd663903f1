/** The company registration request form (SolicitudEmpresa.jsx): a logged-in
    user submits a company name, an 11-digit RUC and a description. The
    server's answer is an input. */
module SolicitudEmpresa {
  import opened Common
  import opened AuthContext

  /** The form. */
  datatype CompanyForm = CompanyForm(nombre: string, ruc: string, descripcion: string)

  const EmptyCompanyForm: CompanyForm := CompanyForm("", "", "")

  /** `/^\d{11}$/`: exactly eleven ASCII digits, nothing before or after. */
  predicate IsRuc(s: string) {
    |s| == 11 && AllDigits(s)
  }

  /** The errors the form shows before any request. */
  datatype FormError = MissingFields | BadRuc

  /** The checks of `handleSubmit`, in order: both name and RUC present, then
      the RUC pattern. */
  function CheckForm(f: CompanyForm): (r: Option<FormError>)
    ensures r == Some(MissingFields) <==> f.nombre == "" || f.ruc == ""
    ensures r == Some(BadRuc) <==> f.nombre != "" && f.ruc != "" && !IsRuc(f.ruc)
    ensures r.None? <==> f.nombre != "" && IsRuc(f.ruc)
  {
    if f.nombre == "" || f.ruc == "" then Some(MissingFields)
    else if !IsRuc(f.ruc) then Some(BadRuc)
    else None
  }

  /** A RUC of the right length holding a non-digit is refused for its pattern,
      as is one of the wrong length; a missing name is reported first whatever
      the RUC. */
  lemma CheckFormOrder(f: CompanyForm, k: int)
    requires f.nombre != "" && |f.ruc| == 11 && 0 <= k < 11 && !IsDigit(f.ruc[k])
    ensures CheckForm(f) == Some(BadRuc)
    ensures CheckForm(f.(nombre := "")) == Some(MissingFields)
  {
  }

  /** Which view the page shows. */
  datatype View = AccessDenied | SuccessView | FormView

  /** The intended views: no user, access denied; a (non-empty) success
      message, the success view; otherwise the form. */
  function ViewFor(user: Option<User>, success: Option<string>): (v: View)
    ensures v == AccessDenied <==> user.None?
    ensures v == SuccessView <==> user.Some? && success.Some? && success.value != ""
  {
    if user.None? then AccessDenied
    else if success.Some? && success.value != "" then SuccessView
    else FormView
  }

  /** The outcome of rendering the page as written: a view, or a render that
      throws because it refers to an identifier the module does not import. */
  datatype Render = Shown(view: View) | ReferenceError(name: string)

  /** The page as written: the access-denied markup uses `Link`, which the
      module never imports (only `useNavigate` comes from the router), so a
      visit with nobody logged in throws instead of showing the notice. The
      other two views use no such identifier. */
  function RenderAsWritten(user: Option<User>, success: Option<string>): (r: Render)
    ensures r.ReferenceError? <==> user.None?
    ensures user.Some? ==> r == Shown(ViewFor(user, success))
  {
    if user.None? then ReferenceError("Link")
    else if success.Some? && success.value != "" then Shown(SuccessView)
    else Shown(FormView)
  }

  /** The discrepancy: for a logged-out visitor the intended view is the
      access-denied notice, but the page as written throws `Link is not
      defined`, whatever the success message. */
  lemma LoggedOutRenderFails(success: Option<string>)
    ensures ViewFor(None, success) == AccessDenied
    ensures RenderAsWritten(None, success) == ReferenceError("Link")
    ensures RenderAsWritten(None, success) != Shown(ViewFor(None, success))
  {
  }

  /** The corrected page differs from the page as written only for a
      logged-out visitor. */
  lemma RenderAgreesWhenLoggedIn(user: Option<User>, success: Option<string>)
    ensures RenderAsWritten(user, success) == Shown(ViewFor(user, success)) <==> user.Some?
  {
  }

  /** The messages the page shows. */
  datatype Message = Invalid(e: FormError) | Failed(text: string)

  /** The page's state. */
  class CompanyRequestPage {
    var formData: CompanyForm
    var isLoading: bool
    var error: Option<Message>
    var success: Option<string>

    constructor ()
      ensures formData == EmptyCompanyForm && !isLoading && error.None? && success.None?
    {
      formData := EmptyCompanyForm;
      isLoading := false;
      error := None;
      success := None;
    }

    /** `handleSubmit`. `answer` is the server's `mensaje` on success (`None`:
        the request failed with message `failure`). Both messages are cleared
        first; an invalid form sends nothing; a success stores the message and
        empties the form. */
    method HandleSubmit(answer: Option<string>, failure: string) returns (request: Option<CompanyForm>)
      modifies this`formData, this`isLoading, this`error, this`success
      ensures var check := CheckForm(old(formData));
        request == (if check.None? then Some(old(formData)) else None) &&
        (check.Some? ==> error == Some(Invalid(check.value)) && success.None? && formData == old(formData))
      ensures request.Some? && answer.Some? ==>
        success == answer && error.None? && formData == EmptyCompanyForm
      ensures request.Some? && answer.None? ==>
        error == Some(Failed(failure)) && success.None? && formData == old(formData)
      ensures isLoading == if request.Some? then false else old(isLoading)
    {
      error := None;
      success := None;
      if formData.nombre == "" || formData.ruc == "" {
        error := Some(Invalid(MissingFields));
        return None;
      }
      if !IsRuc(formData.ruc) {
        error := Some(Invalid(BadRuc));
        return None;
      }
      isLoading := true;
      request := Some(formData);
      if answer.Some? {
        success := answer;
        formData := EmptyCompanyForm;
      } else {
        error := Some(Failed(failure));
      }
      isLoading := false;
    }
  }
}
