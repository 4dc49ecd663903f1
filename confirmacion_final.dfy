/** The confirmation page of the booking wizard (ConfirmacionFinal.jsx). It
    shows what the slot page passed on, filling in a fixed text for every
    missing field, and hands the reservation over to the payment page. */
module ConfirmacionFinal {
  import opened Common
  import opened Wizard
  import DetallePago

  const NoCourt: string := "Cancha No Especificada"
  const NoDate: string := "Fecha No Especificada"
  const NoHour: string := "Hora No Especificada"
  const NoNumber: string := "000000"

  /** What the page shows once the navigation state has been read. */
  datatype Shown = Shown(
    id_reserva: Option<nat>,
    canchaNombre: string,
    fecha: string,
    hora: string,
    monto: int)

  /** A field that was passed on, or its default when it is missing. */
  function OrDefault<T>(field: Option<T>, default: T): (r: T)
    ensures field.Some? ==> r == field.value
    ensures field.None? ==> r == default
  {
    if field.Some? then field.value else default
  }

  /** The destructuring of `location.state || {}`: with no state at all every
      field takes its default; otherwise each missing field does, and each
      present one is kept as passed. */
  function Received(state: Option<ConfirmationState>): (r: Shown)
    ensures state.None? ==> r == Shown(None, NoCourt, NoDate, NoHour, 0)
    ensures state.Some? ==> r.id_reserva == state.value.id_reserva
    ensures state.Some? && state.value.canchaNombre.Some? ==> r.canchaNombre == state.value.canchaNombre.value
    ensures state.Some? && state.value.fecha.Some? ==> r.fecha == state.value.fecha.value
    ensures state.Some? && state.value.hora.Some? ==> r.hora == state.value.hora.value
    ensures state.Some? && state.value.monto.Some? ==> r.monto == state.value.monto.value
    ensures state.Some? && state.value.monto.None? ==> r.monto == 0
  {
    match state
    case None => Shown(None, NoCourt, NoDate, NoHour, 0)
    case Some(s) =>
      Shown(s.id_reserva, OrDefault(s.canchaNombre, NoCourt), OrDefault(s.fecha, NoDate),
            OrDefault(s.hora, NoHour), OrDefault(s.monto, 0))
  }

  /** The reservation number shown: `R-` and the id, or `R-000000` when the id
      is missing or 0. */
  function ReservationLabel(id: Option<nat>): (r: string)
    ensures |r| >= 3 && r[..2] == "R-" && AllDigits(r[2..])
    ensures Falsy(id) <==> r == "R-" + NoNumber
  {
    if Falsy(id) then "R-" + NoNumber
    else
      var digits := DecimalString(id.value);
      assert ("R-" + digits)[2] == digits[0];
      "R-" + digits
  }

  /** A real id can be read back from its label, so distinct ids get distinct labels. */
  lemma ReservationLabelRoundTrip(id: nat)
    requires id != 0
    ensures DecimalValue(ReservationLabel(Some(id))[2..]) == id
  {
    var r := ReservationLabel(Some(id));
    assert r[2..] == DecimalString(id);
    DecimalRoundTrip(id);
  }

  /** What `handleGoToPayment` passes to the payment page: the id and the five
      shown values, unchanged. */
  function Forwarded(shown: Shown): (s: PaymentState)
    ensures s.id_reserva == shown.id_reserva && s.monto == Some(shown.monto)
    ensures s.canchaNombre == Some(shown.canchaNombre) && s.fecha == Some(shown.fecha) && s.hora == Some(shown.hora)
  {
    PaymentState(shown.id_reserva, Some(shown.monto), Some(shown.canchaNombre), Some(shown.fecha), Some(shown.hora))
  }

  /** Across the hand-off, the payment page charges the amount this page showed
      and pays for the reservation it named: the amount is the one the slot page
      passed on, or 0 when it passed none. */
  lemma HandOffKeepsAmount(state: Option<ConfirmationState>)
    ensures DetallePago.Incoming(Some(Forwarded(Received(state)))) ==
      (if state.Some? then state.value.id_reserva else None,
       Some(if state.Some? && state.value.monto.Some? then state.value.monto.value else 0))
  {
  }

  /** The page's state: what it shows, and whether the details box is open. */
  class ConfirmationPage {
    const shown: Shown
    var showDetails: bool

    constructor (state: Option<ConfirmationState>)
      ensures shown == Received(state) && showDetails
    {
      shown := Received(state);
      showDetails := true;
    }

    /** The details button flips the details box. */
    method ToggleDetails()
      modifies this`showDetails
      ensures showDetails == !old(showDetails)
    {
      showDetails := !showDetails;
    }

    /** `handleGoToPayment`: without a (truthy) id nothing is forwarded and an
        alert is raised; otherwise the shown values go to the payment page. */
    method GoToPayment() returns (next: Option<PaymentState>)
      ensures next.None? <==> Falsy(shown.id_reserva)
      ensures next.Some? ==> next.value.id_reserva == shown.id_reserva && next.value.monto == Some(shown.monto)
      ensures next.Some? ==> next == Some(Forwarded(shown))
    {
      if shown.id_reserva.None? || shown.id_reserva.value == 0 {
        return None;
      }
      next := Some(PaymentState(shown.id_reserva, Some(shown.monto),
        Some(shown.canchaNombre), Some(shown.fecha), Some(shown.hora)));
    }
  }
}
