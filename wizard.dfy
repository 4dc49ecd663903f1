/** The records the booking wizard passes from page to page as navigation
    state. Every field may be missing, because a page can be reached without
    the state its predecessor would have passed (a reload, a typed URL). */
module Wizard {
  import opened Common

  /** What the slot page hands to the confirmation page. Amounts are in cents. */
  datatype ConfirmationState = ConfirmationState(
    id_reserva: Option<nat>,
    canchaNombre: Option<string>,
    fecha: Option<string>,
    hora: Option<string>,
    monto: Option<int>)

  /** What the confirmation page hands to the payment page. */
  datatype PaymentState = PaymentState(
    id_reserva: Option<nat>,
    monto: Option<int>,
    canchaNombre: Option<string>,
    fecha: Option<string>,
    hora: Option<string>)

  /** `!id_reserva`: no id, or the falsy id 0. */
  predicate Falsy(id: Option<nat>) {
    id.None? || id.value == 0
  }
}
