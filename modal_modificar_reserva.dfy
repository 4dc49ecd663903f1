/** The dialog that moves an existing reservation to another day and hour
    (ModalModificarReserva.jsx). It combines the date grid of the first wizard
    step with a simpler slot picker: every accepted click selects exactly one
    hour, and saving sends the new start and end with the reservation's
    original price. */
module ModalModificarReserva {
  import opened Common
  import opened Calendar
  import opened TimeSlots
  import opened SeleccionHorario
  import opened SeleccionFecha

  /** The messages the dialog shows. */
  datatype ModalMessage =
    | HourUnavailable            // the clicked hour is occupied or is the closing hour
    | ChooseDateAndHour          // saving with no day or no hour chosen
    | AvailabilityFailed         // the day's availability could not be fetched
    | SaveFailed(text: string)   // the backend refused the change; its message

  /** The reservation being changed, as far as the dialog uses it. */
  datatype Reservation = Reservation(id_reserva: nat, id_cancha: nat, precio_total: int)

  /** The body of the update request. */
  datatype UpdateRequest = UpdateRequest(
    id_reserva: nat,
    fecha_hora_inicio: string,
    fecha_hora_fin: string,
    precio_total: int)

  /** The dialog's `handleSlotClick`: an occupied hour or the closing hour clears
      the selection with an error; any other hour becomes a one-hour block
      ending at the next slot. */
  function ModalClick(slots: seq<string>, av: Availability, slot: string): (r: (Selection, Option<ModalMessage>))
    requires Distinct(slots) && slot in slots
    ensures WellFormed(slots, r.0)
    ensures r.1.None? <==> r.0.start.Some?
    ensures r.1.Some? ==> r.0 == NoSelection && r.1 == Some(HourUnavailable)
    ensures r.0.start.Some? ==>
      r.0.start == Some(slot) && !IsOccupied(av, slot) && Duration(slots, r.0) == 1
  {
    var clicked := IndexOf(slots, slot);
    if IsOccupied(av, slot) || clicked + 1 >= |slots| then
      (NoSelection, Some(HourUnavailable))
    else
      IndexOfDistinct(slots, clicked + 1);
      (Selection(Some(slot), Some(slots[clicked + 1])), None)
  }

  /** Unlike the booking page, the dialog does not look at the hour after the
      clicked one: with that hour occupied, the booking page refuses a first
      click that the dialog accepts, and the dialog's block then ends on an
      occupied hour. */
  lemma ModalSkipsSuccessorCheck(slots: seq<string>, av: Availability, i: int)
    requires Distinct(slots) && 0 <= i < |slots| - 1
    requires !IsOccupied(av, slots[i]) && IsOccupied(av, slots[i + 1])
    ensures ModalClick(slots, av, slots[i]) == (Selection(Some(slots[i]), Some(slots[i + 1])), None)
    ensures Click(slots, av, NoSelection, slots[i]).message == Some(MinimumHourUnavailable)
  {
    IndexOfDistinct(slots, i);
    FirstClick(slots, av, i);
  }

  /** The dialog's `getSlotClass`: the closing hour is hidden, occupied wins,
      then only the start hour is drawn as selected. */
  function ModalSlotStyle(slots: seq<string>, av: Availability, start: Option<string>, slot: string): SlotStyle
  {
    if IndexOf(slots, slot) == |slots| - 1 then Hidden
    else
      var status := StatusOf(av, slot);
      if status == OCCUPIED then OccupiedStyle
      else if start == Some(slot) then SelectedStyle
      else if status == AVAILABLE then AvailableStyle
      else UnavailableStyle
  }

  /** In the dialog, a shown hour is drawn as selected exactly when it is the
      start hour and not occupied, even though the block also covers nothing
      else; the closing hour, and only it, is hidden. */
  lemma ModalSlotStyleMeaning(slots: seq<string>, av: Availability, start: Option<string>, i: int)
    requires Distinct(slots) && 0 <= i < |slots|
    ensures ModalSlotStyle(slots, av, start, slots[i]) == Hidden <==> i == |slots| - 1
    ensures ModalSlotStyle(slots, av, start, slots[i]) == SelectedStyle <==>
      i < |slots| - 1 && start == Some(slots[i]) && !IsOccupied(av, slots[i])
    ensures ModalSlotStyle(slots, av, start, slots[i]) == OccupiedStyle <==>
      i < |slots| - 1 && IsOccupied(av, slots[i])
  {
    IndexOfDistinct(slots, i);
    assert StatusOf(av, slots[i]) == OCCUPIED <==> IsOccupied(av, slots[i]);
  }

  /** For a one-hour block the dialog's styling agrees with the booking page's. */
  lemma ModalStyleAgreesOnOneHour(slots: seq<string>, av: Availability, sel: Selection, i: int)
    requires Distinct(slots) && WellFormed(slots, sel) && 0 <= i < |slots|
    requires sel.start.Some? ==> Duration(slots, sel) == 1
    ensures ModalSlotStyle(slots, av, sel.start, slots[i]) == SlotStyleFor(slots, av, sel, slots[i])
  {
    IndexOfDistinct(slots, i);
    if sel.start.Some? {
      var s := IndexOf(slots, sel.start.value);
      IndexOfDistinct(slots, s);
    }
  }

  /** The dialog's state. */
  class ChangeDialog {
    const slots: seq<string>
    const reserva: Reservation
    var year: int
    var month: int
    var selectedDay: Option<int>
    var availability: Availability
    var isLoadingSlots: bool
    var startSlot: Option<string>
    var endSlot: Option<string>
    var message: Option<ModalMessage>

    ghost predicate Valid()
      reads this
    {
      Distinct(slots) && 0 <= month < 12 && (startSlot.None? <==> endSlot.None?)
    }

    /** The dialog opens on the reservation's own day and hours: `start` is the
        day it starts on and `startLabel`, `endLabel` its start and end times as
        "HH:MM". */
    constructor (reserva: Reservation, start: Date, startLabel: string, endLabel: string)
      requires 0 <= start.month < 12
      ensures Valid() && slots == SlotTable() && this.reserva == reserva
      ensures year == start.year && month == start.month && selectedDay == Some(start.day)
      ensures availability == map[] && !isLoadingSlots
      ensures startSlot == Some(startLabel) && endSlot == Some(endLabel) && message.None?
    {
      var all := GenerateTimeSlots();
      SlotTableDistinct();
      slots := all;
      this.reserva := reserva;
      year, month := start.year, start.month;
      selectedDay := Some(start.day);
      availability := map[];
      isLoadingSlots := false;
      startSlot, endSlot := Some(startLabel), Some(endLabel);
      message := None;
    }

    /** `changeMonth(delta)`: the shown month moves and the day, the hours and
        the loaded availability are all dropped. */
    method ChangeMonth(delta: int)
      requires Valid()
      modifies this`year, this`month, this`selectedDay, this`startSlot, this`endSlot, this`availability
      ensures Valid()
      ensures (year, month) == StepMonth(old(year), old(month), delta)
      ensures selectedDay.None? && startSlot.None? && endSlot.None? && availability == map[]
    {
      var (y, m) := NormalizeMonth(year, month + delta);
      year, month := y, m;
      selectedDay := None;
      startSlot := None;
      endSlot := None;
      availability := map[];
    }

    /** A day button: only days from today on are enabled, so a click on an
        earlier day does nothing. */
    method ClickDay(day: int, today: Date)
      modifies this`selectedDay
      ensures selectedDay == if IsAvailable(year, month, day, today) then Some(day) else old(selectedDay)
    {
      if DayNumber(year, month, day) >= DateNumber(today) {
        selectedDay := Some(day);
      }
    }

    /** The availability effect, run whenever the day or month changes. With no
        day the availability is emptied. Otherwise `response` is the backend's
        answer (`None`: the request failed): on success the map is stored and the
        hours are dropped exactly when the start hour is now occupied; on
        failure the load error is shown. Loading ends either way. */
    method ReloadAvailability(response: Option<Availability>)
      requires Valid()
      modifies this`availability, this`isLoadingSlots, this`message, this`startSlot, this`endSlot
      ensures Valid()
      ensures NoDaySelected(selectedDay) ==>
        availability == map[] && isLoadingSlots == old(isLoadingSlots) && message == old(message) &&
        startSlot == old(startSlot) && endSlot == old(endSlot)
      ensures !NoDaySelected(selectedDay) ==> !isLoadingSlots
      ensures !NoDaySelected(selectedDay) && response.Some? ==>
        availability == response.value && message.None? &&
        (startSlot == if old(startSlot).Some? && IsOccupied(response.value, old(startSlot).value)
                      then None else old(startSlot)) &&
        (endSlot.None? <==> startSlot.None?) && (startSlot.Some? ==> endSlot == old(endSlot))
      ensures !NoDaySelected(selectedDay) && response.None? ==>
        availability == old(availability) && message == Some(AvailabilityFailed) &&
        startSlot == old(startSlot) && endSlot == old(endSlot)
    {
      if selectedDay.None? || selectedDay.value == 0 {
        availability := map[];
        return;
      }
      isLoadingSlots := true;
      message := None;
      if response.None? {
        message := Some(AvailabilityFailed);
      } else {
        var data := response.value;
        availability := data;
        if startSlot.Some? && IsOccupied(data, startSlot.value) {
          startSlot := None;
          endSlot := None;
        }
      }
      isLoadingSlots := false;
    }

    /** `handleSlotClick` in the dialog. */
    method HandleSlotClick(slot: string)
      requires Valid() && slot in slots
      modifies this`startSlot, this`endSlot, this`message
      ensures Valid()
      ensures (Selection(startSlot, endSlot), message) == ModalClick(slots, availability, slot)
    {
      message := None;
      var clickedIdx := IndexOf(slots, slot);
      if IsOccupied(availability, slot) || clickedIdx + 1 >= |slots| {
        message := Some(HourUnavailable);
        startSlot := None;
        endSlot := None;
        return;
      }
      var nextSlot := slots[clickedIdx + 1];
      startSlot := Some(slot);
      endSlot := Some(nextSlot);
    }

    /** The save button is disabled with no start hour or while hours load. */
    function SaveDisabled(): bool
      reads this
    {
      startSlot.None? || startSlot == Some("") || isLoadingSlots
    }

    /** `handleSaveChanges`. `dateText` is the chosen day as `YYYY-MM-DD` and
        `failure` the backend's answer to the update (`None`: accepted; otherwise
        the error's message, possibly empty). Without a day and a start hour no
        request is sent; otherwise the request carries the new start and end and
        the reservation's original price, and `saved` reports success. */
    method HandleSaveChanges(dateText: string, failure: Option<string>)
      returns (request: Option<UpdateRequest>, saved: bool)
      requires Valid()
      modifies this`message
      ensures request.None? <==> NoDaySelected(selectedDay) || startSlot.None? || startSlot == Some("")
      ensures request.None? ==> message == Some(ChooseDateAndHour) && !saved
      ensures request.Some? ==>
        request.value == UpdateRequest(reserva.id_reserva,
          dateText + " " + startSlot.value + ":00", dateText + " " + endSlot.value + ":00",
          reserva.precio_total)
      ensures request.Some? ==> (saved <==> failure.None?)
      ensures request.Some? && failure.None? ==> message.None?
      ensures request.Some? && failure.Some? ==>
        message == Some(SaveFailed(if failure.value == "" then "Failed to fetch" else failure.value))
    {
      message := None;
      request, saved := None, false;
      if selectedDay.None? || selectedDay.value == 0 || startSlot.None? || startSlot.value == "" {
        message := Some(ChooseDateAndHour);
        return;
      }
      var fecha_hora_inicio := dateText + " " + startSlot.value + ":00";
      var fecha_hora_fin := dateText + " " + endSlot.value + ":00";
      var precio_total := reserva.precio_total;
      request := Some(UpdateRequest(reserva.id_reserva, fecha_hora_inicio, fecha_hora_fin, precio_total));
      if failure.Some? {
        message := Some(SaveFailed(if failure.value == "" then "Failed to fetch" else failure.value));
        return;
      }
      saved := true;
    }
  }
}
