/** The payment step of the booking wizard (DetallePago.jsx): a card and
    contact form whose fields are cleaned as they are typed, a validation that
    reports the first problem it finds, and a payment request sent only for a
    valid form. The amount comes from the previous step. */
module DetallePago {
  import opened Common
  import opened Wizard

  /** `value.replace(/[^...]/g, '')`: keeps, in order, the characters `allowed` accepts. */
  function Keep(s: string, allowed: char -> bool): (r: string)
    ensures |r| <= |s|
    ensures forall i :: 0 <= i < |r| ==> allowed(r[i])
  {
    if s == [] then []
    else (if allowed(s[0]) then [s[0]] else []) + Keep(s[1..], allowed)
  }

  /** Nothing accepted is lost: every accepted character occurs as often in the
      result as in the input, and no rejected character occurs at all. */
  lemma {:induction false} KeepCounts(s: string, allowed: char -> bool, c: char)
    ensures multiset(Keep(s, allowed))[c] == if allowed(c) then multiset(s)[c] else 0
  {
    if s != [] {
      KeepCounts(s[1..], allowed, c);
      assert s == [s[0]] + s[1..];
    }
  }

  /** Text made only of accepted characters passes through unchanged, so
      cleaning a field twice is the same as cleaning it once. */
  lemma {:induction false} KeepAllowed(s: string, allowed: char -> bool)
    requires forall i :: 0 <= i < |s| ==> allowed(s[i])
    ensures Keep(s, allowed) == s
  {
    if s != [] {
      KeepAllowed(s[1..], allowed);
    }
  }

  /** `[0-9]`. */
  function DigitFilter(): char -> bool
  {
    c => IsDigit(c)
  }

  /** `[a-zA-Z\sñÑáéíóúÁÉÍÓÚ]`: ASCII letters, white space and the Spanish
      accented letters. */
  predicate IsNameChar(c: char) {
    ('a' <= c <= 'z') || ('A' <= c <= 'Z') || IsSpace(c) ||
    c == 'ñ' || c == 'Ñ' || c == 'á' || c == 'é' || c == 'í' || c == 'ó' || c == 'ú' ||
    c == 'Á' || c == 'É' || c == 'Í' || c == 'Ó' || c == 'Ú'
  }

  function NameFilter(): char -> bool
  {
    c => IsNameChar(c)
  }

  /** Only ASCII digits survive the digit filter. */
  lemma DigitsOnly(s: string)
    ensures AllDigits(Keep(s, DigitFilter()))
  {
    var r := Keep(s, DigitFilter());
    assert forall i :: 0 <= i < |r| ==> DigitFilter()(r[i]);
  }

  /** The delete case of the expiry field: the new text is shorter than the old
      one and ends with '/'. */
  predicate DeletingSlash(value: string, previous: string) {
    |value| < |previous| && |value| > 0 && value[|value| - 1] == '/'
  }

  function Min(a: int, b: int): int {
    if a < b then a else b
  }

  /** The MM/YY auto-formatter of the expiry field. `value` is what the field now
      holds and `previous` what it held before the keystroke. */
  function FormatExpiry(value: string, previous: string): (r: string)
    ensures |r| <= 5
    ensures DeletingSlash(value, previous) ==>
      var d := Keep(value, DigitFilter()); r == d[..Min(5, |d|)]
    ensures !DeletingSlash(value, previous) ==>
      var d := Keep(value, DigitFilter());
      r == if |d| > 2 then d[..2] + "/" + d[2..Min(4, |d|)] else d
  {
    var numericValue := Keep(value, DigitFilter());
    var formattedValue :=
      if DeletingSlash(value, previous) then numericValue
      else if |numericValue| > 2 then numericValue[..2] + "/" + numericValue[2..Min(4, |numericValue|)]
      else numericValue;
    formattedValue[..Min(5, |formattedValue|)]
  }

  /** The formatter's output is digits, except for a '/' in third place, which
      it has exactly when it is longer than two characters and the key pressed
      did not delete the slash; it never ends with '/'. */
  lemma FormatExpiryShape(value: string, previous: string)
    ensures var r := FormatExpiry(value, previous);
      (forall i :: 0 <= i < |r| && i != 2 ==> IsDigit(r[i])) &&
      (|r| > 2 && !DeletingSlash(value, previous) ==> r[2] == '/') &&
      (DeletingSlash(value, previous) ==> AllDigits(r)) &&
      (r != [] ==> r[|r| - 1] != '/')
  {
    var d := Keep(value, DigitFilter());
    DigitsOnly(value);
    var r := FormatExpiry(value, previous);
    if !DeletingSlash(value, previous) && |d| > 2 {
      assert r[..2] == d[..2] && r[2] == '/' && r[3..] == d[2..Min(4, |d|)];
      assert forall i :: 3 <= i < |r| ==> r[i] == d[i - 1];
    }
  }

  /** Formatting is idempotent: whatever the formatter produced outside the
      delete case comes back unchanged when the field is formatted again, for
      any previous text. */
  lemma FormatExpiryIdempotent(value: string, previous: string, again: string)
    requires !DeletingSlash(value, previous)
    ensures FormatExpiry(FormatExpiry(value, previous), again) == FormatExpiry(value, previous)
  {
    var d := Keep(value, DigitFilter());
    DigitsOnly(value);
    if |d| > 2 {
      ReformatSlashed(d[..2], d[2..Min(4, |d|)], again);
    } else {
      ReformatDigits(d, again);
    }
  }

  /** "MM/Y" and "MM/YY" are left as they are. */
  lemma ReformatSlashed(month: string, year: string, again: string)
    requires |month| == 2 && AllDigits(month) && 1 <= |year| <= 2 && AllDigits(year)
    ensures FormatExpiry(month + "/" + year, again) == month + "/" + year
  {
    var r := month + "/" + year;
    assert r[|r| - 1] == year[|year| - 1];
    assert r == month + ("/" + year);
    assert Keep("/", DigitFilter()) == [];
    KeepAppend(month, "/" + year, DigitFilter());
    KeepAppend("/", year, DigitFilter());
    KeepAllowed(month, DigitFilter());
    KeepAllowed(year, DigitFilter());
    var e := Keep(r, DigitFilter());
    assert e == month + year;
    assert e[..2] == month && e[2..Min(4, |e|)] == year;
  }

  /** Up to two digits are left as they are. */
  lemma ReformatDigits(d: string, again: string)
    requires |d| <= 2 && AllDigits(d)
    ensures FormatExpiry(d, again) == d
  {
    KeepAllowed(d, DigitFilter());
  }

  /** Cleaning distributes over concatenation. */
  lemma {:induction false} KeepAppend(s: string, t: string, allowed: char -> bool)
    ensures Keep(s + t, allowed) == Keep(s, allowed) + Keep(t, allowed)
  {
    if s == [] {
      assert s + t == t;
    } else {
      assert (s + t)[0] == s[0] && (s + t)[1..] == s[1..] + t;
      KeepAppend(s[1..], t, allowed);
    }
  }

  /** `/^\d{16}$/`. */
  predicate CardOk(s: string) {
    |s| == 16 && AllDigits(s)
  }

  /** `/^(0[1-9]|1[0-2])\/\d{2}$/`: a month 01..12, a slash, two digits. */
  predicate ExpiryOk(s: string) {
    |s| == 5 &&
    ((s[0] == '0' && '1' <= s[1] <= '9') || (s[0] == '1' && '0' <= s[1] <= '2')) &&
    s[2] == '/' && IsDigit(s[3]) && IsDigit(s[4])
  }

  /** Typing the four digits of a valid month and year, in any field state that
      is not the delete case, yields a valid expiry. */
  lemma TypedExpiryValid(value: string, previous: string)
    requires !DeletingSlash(value, previous)
    requires var d := Keep(value, DigitFilter());
      |d| >= 4 && 1 <= DigitValue(d[0]) * 10 + DigitValue(d[1]) <= 12
    ensures ExpiryOk(FormatExpiry(value, previous))
  {
    DigitsOnly(value);
    var d := Keep(value, DigitFilter());
    var r := FormatExpiry(value, previous);
    assert r == d[..2] + "/" + d[2..4];
    assert r[0] == d[0] && r[1] == d[1] && r[3] == d[2] && r[4] == d[3];
  }

  /** `/^\d{3,4}$/`. */
  predicate CvvOk(s: string) {
    3 <= |s| <= 4 && AllDigits(s)
  }

  /** `/\S+@\S+\.\S+/.test(s)`, which is not anchored: somewhere in `s` a
      non-space character is followed by '@', then by a non-empty run of
      non-space characters, then by '.', then by a non-space character. */
  predicate EmailLike(s: string) {
    exists p, q :: 0 < p && p + 1 < q && q + 1 < |s| && EmailAt(s, p, q)
  }

  /** The address pattern matches with its '@' at `p` and its '.' at `q`. */
  predicate EmailAt(s: string, p: int, q: int)
    requires 0 < p && p + 1 < q && q + 1 < |s|
  {
    s[p] == '@' && s[q] == '.' && !IsSpace(s[p - 1]) && !IsSpace(s[q + 1]) &&
    forall k :: p < k < q ==> !IsSpace(s[k])
  }

  /** Because the pattern is not anchored, text around an accepted address
      (white space included) does not make it rejected. */
  lemma EmailLikeUnanchored(a: string, s: string, b: string)
    requires EmailLike(s)
    ensures EmailLike(a + s + b)
  {
    var p, q :| 0 < p && p + 1 < q && q + 1 < |s| && EmailAt(s, p, q);
    var t := a + s + b;
    assert forall k :: 0 <= k < |s| ==> t[|a| + k] == s[k];
    var p', q' := |a| + p, |a| + q;
    assert forall k :: p' < k < q' ==> t[k] == s[k - |a|];
    assert EmailAt(t, p', q');
  }

  /** An address needs at least five characters: x@y.z. */
  lemma EmailLikeLength(s: string)
    requires EmailLike(s)
    ensures |s| >= 5
  {
  }

  /** `/^\d{9,}$/`. */
  predicate PhoneOk(s: string) {
    |s| >= 9 && AllDigits(s)
  }

  /** The holder and contact check: trimmed name of at least 5 characters,
      trimmed document of at least 7, an address and a phone number. */
  predicate HolderOk(fullName: string, documentId: string, email: string, phone: string) {
    |Trim(fullName)| >= 5 && |Trim(documentId)| >= 7 && EmailLike(email) && PhoneOk(phone)
  }

  /** The form's fields. */
  datatype PaymentForm = PaymentForm(
    cardNumber: string,
    expiryDate: string,
    cvv: string,
    fullName: string,
    documentId: string,
    email: string,
    phone: string)

  const EmptyForm: PaymentForm := PaymentForm("", "", "", "", "", "", "")

  /** The `name` of the input that changed. */
  datatype Field = CardNumber | ExpiryDate | Cvv | FullName | DocumentId | Email | Phone

  /** The field `f` of `form`. */
  function Get(form: PaymentForm, f: Field): string
  {
    match f
    case CardNumber => form.cardNumber
    case ExpiryDate => form.expiryDate
    case Cvv => form.cvv
    case FullName => form.fullName
    case DocumentId => form.documentId
    case Email => form.email
    case Phone => form.phone
  }

  predicate IsNumericField(f: Field) {
    f == CardNumber || f == Cvv || f == DocumentId || f == Phone
  }

  /** `handleChange`: the changed field is cleaned as its kind requires and
      stored; every other field keeps its value. */
  function ApplyChange(form: PaymentForm, f: Field, value: string): (r: PaymentForm)
    ensures forall g :: g != f ==> Get(r, g) == Get(form, g)
    ensures IsNumericField(f) ==> Get(r, f) == Keep(value, DigitFilter())
    ensures f == FullName ==> r.fullName == Keep(value, NameFilter())
    ensures f == ExpiryDate ==> r.expiryDate == FormatExpiry(value, form.expiryDate)
    ensures f == Email ==> r.email == value
  {
    match f
    case CardNumber => form.(cardNumber := Keep(value, DigitFilter()))
    case Cvv => form.(cvv := Keep(value, DigitFilter()))
    case DocumentId => form.(documentId := Keep(value, DigitFilter()))
    case Phone => form.(phone := Keep(value, DigitFilter()))
    case FullName => form.(fullName := Keep(value, NameFilter()))
    case ExpiryDate => form.(expiryDate := FormatExpiry(value, form.expiryDate))
    case Email => form.(email := value)
  }

  /** What the filters guarantee about the stored form. */
  predicate Sanitized(form: PaymentForm) {
    AllDigits(form.cardNumber) && AllDigits(form.cvv) && AllDigits(form.documentId) &&
    AllDigits(form.phone) && (forall i :: 0 <= i < |form.fullName| ==> IsNameChar(form.fullName[i])) &&
    |form.expiryDate| <= 5
  }

  /** Every change keeps the form sanitized: the numeric fields hold only digits,
      the name only name characters, and the expiry at most five characters. */
  lemma ApplyChangeSanitized(form: PaymentForm, f: Field, value: string)
    requires Sanitized(form)
    ensures Sanitized(ApplyChange(form, f, value))
  {
    DigitsOnly(value);
    var n := Keep(value, NameFilter());
    assert forall i :: 0 <= i < |n| ==> NameFilter()(n[i]);
  }

  /** The errors the page shows: the validation errors in the order they are
      checked, then the backend's refusal of the payment. */
  datatype PaymentError = BadCard | BadExpiry | BadCvv | BadHolder | NoReservation | PaymentRejected

  /** `validateForm`: the first failing check, or `None` when the form is valid. */
  function Validate(form: PaymentForm, id_reserva: Option<nat>): (r: Option<PaymentError>)
    ensures r.None? <==>
      CardOk(form.cardNumber) && ExpiryOk(form.expiryDate) && CvvOk(form.cvv) &&
      HolderOk(form.fullName, form.documentId, form.email, form.phone) && !Falsy(id_reserva)
    ensures r == Some(BadCard) <==> !CardOk(form.cardNumber)
    ensures r == Some(BadExpiry) <==> CardOk(form.cardNumber) && !ExpiryOk(form.expiryDate)
    ensures r == Some(BadCvv) <==> CardOk(form.cardNumber) && ExpiryOk(form.expiryDate) && !CvvOk(form.cvv)
    ensures r == Some(BadHolder) <==>
      CardOk(form.cardNumber) && ExpiryOk(form.expiryDate) && CvvOk(form.cvv) &&
      !HolderOk(form.fullName, form.documentId, form.email, form.phone)
    ensures r == Some(NoReservation) <==>
      CardOk(form.cardNumber) && ExpiryOk(form.expiryDate) && CvvOk(form.cvv) &&
      HolderOk(form.fullName, form.documentId, form.email, form.phone) && Falsy(id_reserva)
    ensures r != Some(PaymentRejected)
  {
    if !CardOk(form.cardNumber) then Some(BadCard)
    else if !ExpiryOk(form.expiryDate) then Some(BadExpiry)
    else if !CvvOk(form.cvv) then Some(BadCvv)
    else if !HolderOk(form.fullName, form.documentId, form.email, form.phone) then Some(BadHolder)
    else if Falsy(id_reserva) then Some(NoReservation)
    else None
  }

  /** A form filled in through `handleChange` only can still be invalid, but
      never because a digit field holds a non-digit: a sixteen-character card
      field is always a valid card number. */
  lemma SanitizedCard(form: PaymentForm)
    requires Sanitized(form) && |form.cardNumber| == 16
    ensures Validate(form, None) != Some(BadCard)
  {
  }

  /** The id and amount the page works with: those in the navigation state, or
      no id and 0 when the page is reached without state. */
  function Incoming(state: Option<PaymentState>): (r: (Option<nat>, Option<int>))
    ensures state.None? ==> r == (None, Some(0))
    ensures state.Some? ==> r == (state.value.id_reserva, state.value.monto)
  {
    match state
    case None => (None, Some(0))
    case Some(s) => (s.id_reserva, s.monto)
  }

  /** The body of the payment request; `monto` is `None` when the state had no amount. */
  datatype PaymentRequest = PaymentRequest(id_reserva: Option<nat>, monto: Option<int>, metodo_pago: string)

  const CardMethod: string := "Tarjeta de crédito (**** 1234)"

  /** The page's state. */
  class PaymentPage {
    const id_reserva: Option<nat>
    const monto: Option<int>
    var formData: PaymentForm
    var error: Option<PaymentError>
    var isLoading: bool

    constructor (state: Option<PaymentState>)
      ensures (id_reserva, monto) == Incoming(state)
      ensures formData == EmptyForm && error.None? && !isLoading
    {
      var incoming := Incoming(state);
      id_reserva := incoming.0;
      monto := incoming.1;
      formData := EmptyForm;
      error := None;
      isLoading := false;
    }

    /** `handleChange` for input `f` now holding `value`. */
    method HandleChange(f: Field, value: string)
      modifies this`formData
      ensures formData == ApplyChange(old(formData), f, value)
    {
      if IsNumericField(f) {
        var numericValue := Keep(value, DigitFilter());
        formData := match f
          case CardNumber => formData.(cardNumber := numericValue)
          case Cvv => formData.(cvv := numericValue)
          case DocumentId => formData.(documentId := numericValue)
          case _ => formData.(phone := numericValue);
      } else if f == FullName {
        formData := formData.(fullName := Keep(value, NameFilter()));
      } else if f == ExpiryDate {
        var formattedValue := FormatExpiry(value, formData.expiryDate);
        formData := formData.(expiryDate := formattedValue);
      } else {
        formData := formData.(email := value);
      }
    }

    /** `handleSubmitPayment`. `accepted` is the backend's answer to the payment.
        The request is sent exactly when the form validates, for the incoming
        amount; a refused payment shows the failure and ends loading, an
        accepted one keeps loading while the page navigates away. */
    method HandleSubmitPayment(accepted: bool) returns (request: Option<PaymentRequest>)
      modifies this`error, this`isLoading
      ensures request.Some? <==> Validate(formData, id_reserva).None?
      ensures request.None? ==> error == Validate(formData, id_reserva) && isLoading == old(isLoading)
      ensures request.Some? ==> request.value == PaymentRequest(id_reserva, monto, CardMethod)
      ensures request.Some? ==>
        error == (if accepted then None else Some(PaymentRejected)) && isLoading == accepted
    {
      error := Validate(formData, id_reserva);
      if error.Some? {
        return None;
      }
      isLoading := true;
      request := Some(PaymentRequest(id_reserva, monto, CardMethod));
      if !accepted {
        error := Some(PaymentRejected);
        isLoading := false;
      }
    }
  }
}
