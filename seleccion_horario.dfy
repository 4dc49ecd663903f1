/** The time-slot step of the booking wizard (SeleccionHorario.jsx): the user
    picks a block of whole hours on one day. The page holds a start slot and an
    end slot (exclusive); each click on a slot moves that pair under the rules
    of `Click`, and confirming turns the block into a reservation request whose
    total is the hourly price times the number of hours.

    The rules are stated for any list of distinct slot labels `slots` (the page
    uses `SlotTable()`, whose labels are distinct by `SlotTableDistinct`); the
    last entry is the closing hour, which can be an end but never a start. */
module SeleccionHorario {
  import opened Common
  import opened TimeSlots
  import opened Wizard

  /** The messages the page shows, one constructor per distinct text. */
  datatype Message =
    | SlotUnavailable          // the clicked hour is occupied or is the closing hour
    | MinimumHourUnavailable   // the hour after a first click is occupied
    | PastClosing              // the block would end after the closing hour
    | RangeIncludesOccupied    // the block would contain an occupied hour
    | BlockTooShort            // the block would be shorter than one hour
    | SelectBlockFirst         // confirming with nothing selected
    | ConfirmedBlockTooShort   // confirming a block shorter than one hour
    | LoadFailed               // the court or its availability could not be fetched
    | CreateFailed             // the reservation could not be created

  /** The pair `(startSlot, endSlot)`; the end slot is the first hour after the block. */
  datatype Selection = Selection(start: Option<string>, end: Option<string>)

  const NoSelection: Selection := Selection(None, None)

  /** The state a click leaves behind: the new selection and the message shown. */
  datatype ClickResult = ClickResult(selection: Selection, message: Option<Message>)

  /** The selection invariant: start and end are set together, both are slots,
      and the start comes strictly before the end. */
  predicate WellFormed(slots: seq<string>, sel: Selection)
  {
    (sel.start.None? <==> sel.end.None?) &&
    (sel.start.Some? ==>
      sel.start.value in slots && sel.end.value in slots &&
      IndexOf(slots, sel.start.value) < IndexOf(slots, sel.end.value))
  }

  /** No hour of the selected block `[start, end)` is occupied. */
  predicate Free(slots: seq<string>, av: Availability, sel: Selection)
    requires WellFormed(slots, sel)
  {
    sel.start.Some? ==>
      forall i :: IndexOf(slots, sel.start.value) <= i < IndexOf(slots, sel.end.value) ==>
        !IsOccupied(av, slots[i])
  }

  /** Some hour at an index in `[lo, hi]` is occupied: what the page's `for` loop looks for. */
  predicate RangeOccupied(slots: seq<string>, av: Availability, lo: int, hi: int)
    requires 0 <= lo && hi < |slots|
  {
    exists i :: lo <= i <= hi && IsOccupied(av, slots[i])
  }

  /** `handleSlotClick`: what a click on `slot` does to the selection, given the
      day's availability. Whatever the click, the selection stays well formed, a
      selection the click changes never contains an occupied hour, and a click
      that shows no message either toggles the start off or leaves a block selected. */
  function Click(slots: seq<string>, av: Availability, sel: Selection, slot: string): (r: ClickResult)
    requires Distinct(slots) && WellFormed(slots, sel) && slot in slots
    ensures WellFormed(slots, r.selection)
    ensures r.selection != sel ==> Free(slots, av, r.selection)
    ensures r.message.None? ==> r.selection.start.Some? || sel.start == Some(slot)
  {
    var clicked := IndexOf(slots, slot);
    if IsOccupied(av, slot) || clicked + 1 >= |slots| then
      ClickResult(NoSelection, Some(SlotUnavailable))
    else
      var next := slots[clicked + 1];
      if sel.start == Some(slot) then
        ClickResult(NoSelection, None)
      else if sel.start.None? then
        if IsOccupied(av, next) then ClickResult(sel, Some(MinimumHourUnavailable))
        else
          IndexOfDistinct(slots, clicked + 1);
          ClickResult(Selection(Some(slot), Some(next)), None)
      else
        var startIdx := IndexOf(slots, sel.start.value);
        var lo := if startIdx < clicked then startIdx else clicked;
        var hi := if startIdx < clicked then clicked else startIdx;
        if hi + 1 >= |slots| then ClickResult(sel, Some(PastClosing))
        else if RangeOccupied(slots, av, lo, hi) then ClickResult(NoSelection, Some(RangeIncludesOccupied))
        else if hi - lo + 1 < 1 then ClickResult(NoSelection, Some(BlockTooShort))
        else
          IndexOfDistinct(slots, lo);
          IndexOfDistinct(slots, hi + 1);
          ClickResult(Selection(Some(slots[lo]), Some(slots[hi + 1])), None)
  }

  /** Clicking an occupied hour or the closing hour shows an error and clears the selection. */
  lemma ClickUnavailableClears(slots: seq<string>, av: Availability, sel: Selection, slot: string)
    requires Distinct(slots) && WellFormed(slots, sel) && slot in slots
    requires IsOccupied(av, slot) || slot == slots[|slots| - 1]
    ensures Click(slots, av, sel, slot) == ClickResult(NoSelection, Some(SlotUnavailable))
  {
    IndexOfDistinct(slots, |slots| - 1);
  }

  /** Clicking the current start hour (when it is bookable) clears the selection
      without a message. */
  lemma ClickOnStartTogglesOff(slots: seq<string>, av: Availability, sel: Selection)
    requires Distinct(slots) && WellFormed(slots, sel) && sel.start.Some?
    requires !IsOccupied(av, sel.start.value)
    ensures Click(slots, av, sel, sel.start.value) == ClickResult(NoSelection, None)
  {
  }

  /** With nothing selected, a click on a bookable hour selects that one hour,
      unless the following hour is occupied: then the selection stays empty and
      the minimum-hour message is shown. */
  lemma FirstClick(slots: seq<string>, av: Availability, i: int)
    requires Distinct(slots) && 0 <= i < |slots| - 1 && !IsOccupied(av, slots[i])
    ensures IsOccupied(av, slots[i + 1]) ==>
      Click(slots, av, NoSelection, slots[i]) == ClickResult(NoSelection, Some(MinimumHourUnavailable))
    ensures !IsOccupied(av, slots[i + 1]) ==>
      Click(slots, av, NoSelection, slots[i]) == ClickResult(Selection(Some(slots[i]), Some(slots[i + 1])), None)
  {
    IndexOfDistinct(slots, i);
  }

  /** With a start selected, a click on another bookable hour makes the block run
      from the earlier to the later of the two hours, both included; if any hour
      in between is occupied the selection is cleared instead. */
  lemma RangeClick(slots: seq<string>, av: Availability, sel: Selection, i: int)
    requires Distinct(slots) && WellFormed(slots, sel) && sel.start.Some?
    requires 0 <= i < |slots| - 1 && !IsOccupied(av, slots[i]) && sel.start != Some(slots[i])
    ensures var s := IndexOf(slots, sel.start.value);
      var lo := if s < i then s else i;
      var hi := if s < i then i else s;
      0 <= lo <= hi < |slots| - 1 &&
      Click(slots, av, sel, slots[i]) ==
        if RangeOccupied(slots, av, lo, hi) then ClickResult(NoSelection, Some(RangeIncludesOccupied))
        else ClickResult(Selection(Some(slots[lo]), Some(slots[hi + 1])), None)
  {
    IndexOfDistinct(slots, i);
  }

  /** From a well-formed selection the closing-time and shorter-than-an-hour
      errors of `handleSlotClick` can never arise: those two guards are dead code. */
  lemma ClickGuardsUnreachable(slots: seq<string>, av: Availability, sel: Selection, slot: string)
    requires Distinct(slots) && WellFormed(slots, sel) && slot in slots
    ensures Click(slots, av, sel, slot).message != Some(PastClosing)
    ensures Click(slots, av, sel, slot).message != Some(BlockTooShort)
  {
  }

  /** Only the status "occupied" blocks a click: two availability maps that agree
      on which hours are occupied give the same outcome, whatever other statuses
      ("unavailable", "available", none) they hold. */
  lemma ClickDependsOnlyOnOccupancy(slots: seq<string>, av1: Availability, av2: Availability,
                                    sel: Selection, slot: string)
    requires Distinct(slots) && WellFormed(slots, sel) && slot in slots
    requires forall s :: IsOccupied(av1, s) <==> IsOccupied(av2, s)
    ensures Click(slots, av1, sel, slot) == Click(slots, av2, sel, slot)
  {
    forall lo, hi | 0 <= lo && hi < |slots|
      ensures RangeOccupied(slots, av1, lo, hi) <==> RangeOccupied(slots, av2, lo, hi)
    {
    }
  }

  /** The first click checks the hour after the clicked one, but extending a
      block does not check the hour after the block: with hour `i + 1` occupied,
      "hour i alone" is refused while "hour i - 1 to hour i" is accepted, though
      both blocks end at hour `i + 1`. */
  lemma SuccessorCheckAsymmetry(slots: seq<string>, av: Availability, i: int)
    requires Distinct(slots) && 1 <= i < |slots| - 1
    requires !IsOccupied(av, slots[i - 1]) && !IsOccupied(av, slots[i])
    requires IsOccupied(av, slots[i + 1])
    ensures Click(slots, av, NoSelection, slots[i]).message == Some(MinimumHourUnavailable)
    ensures Click(slots, av, Selection(Some(slots[i - 1]), Some(slots[i])), slots[i]).selection
      == Selection(Some(slots[i - 1]), Some(slots[i + 1]))
  {
    IndexOfDistinct(slots, i - 1);
    IndexOfDistinct(slots, i);
    FirstClick(slots, av, i);
    var sel := Selection(Some(slots[i - 1]), Some(slots[i]));
    RangeClick(slots, av, sel, i);
    assert !RangeOccupied(slots, av, i - 1, i);
  }

  /** A click keeps a block free of occupied hours: if the selection was free
      before, it is free after, whatever the click. */
  lemma ClickKeepsFree(slots: seq<string>, av: Availability, sel: Selection, slot: string)
    requires Distinct(slots) && WellFormed(slots, sel) && slot in slots && Free(slots, av, sel)
    ensures Free(slots, av, Click(slots, av, sel, slot).selection)
  {
  }

  /** The number of hours a well-formed selection covers: at least one, and at
      most the number of bookable hours. */
  function Duration(slots: seq<string>, sel: Selection): (hours: int)
    requires WellFormed(slots, sel) && sel.start.Some?
    ensures 1 <= hours <= |slots| - 1
  {
    IndexOf(slots, sel.end.value) - IndexOf(slots, sel.start.value)
  }

  /** `getSlotClass`: the closing hour is hidden; an occupied hour is styled as
      occupied even inside the selection; then selected, available, unavailable. */
  function SlotStyleFor(slots: seq<string>, av: Availability, sel: Selection, slot: string): SlotStyle
  {
    var idx := IndexOf(slots, slot);
    if idx == |slots| - 1 then Hidden
    else
      var status := StatusOf(av, slot);
      var within := sel.start.Some? && sel.end.Some? &&
        idx >= IndexOf(slots, sel.start.value) && idx < IndexOf(slots, sel.end.value);
      if status == OCCUPIED then OccupiedStyle
      else if within then SelectedStyle
      else if status == AVAILABLE then AvailableStyle
      else UnavailableStyle
  }

  /** The closing hour, and only it, is hidden; a shown hour is styled as occupied
      exactly when it is occupied, and as selected exactly when it lies in
      `[start, end)` and is not occupied. */
  lemma SlotStyleMeaning(slots: seq<string>, av: Availability, sel: Selection, i: int)
    requires Distinct(slots) && WellFormed(slots, sel) && 0 <= i < |slots|
    ensures SlotStyleFor(slots, av, sel, slots[i]) == Hidden <==> i == |slots| - 1
    ensures SlotStyleFor(slots, av, sel, slots[i]) == OccupiedStyle <==>
      i < |slots| - 1 && IsOccupied(av, slots[i])
    ensures SlotStyleFor(slots, av, sel, slots[i]) == SelectedStyle <==>
      i < |slots| - 1 && sel.start.Some? && !IsOccupied(av, slots[i]) &&
      IndexOf(slots, sel.start.value) <= i < IndexOf(slots, sel.end.value)
  {
    IndexOfDistinct(slots, i);
    assert StatusOf(av, slots[i]) == OCCUPIED <==> IsOccupied(av, slots[i]);
  }

  /** A click never leaves an occupied hour styled as selected. */
  lemma NoOccupiedSelected(slots: seq<string>, av: Availability, sel: Selection, slot: string, i: int)
    requires Distinct(slots) && WellFormed(slots, sel) && slot in slots && 0 <= i < |slots|
    ensures var r := Click(slots, av, sel, slot);
      IsOccupied(av, slots[i]) ==> SlotStyleFor(slots, av, r.selection, slots[i]) != SelectedStyle
  {
    SlotStyleMeaning(slots, av, Click(slots, av, sel, slot).selection, i);
  }

  /** The keys whose status is "occupied", whatever hour they name. */
  function OccupiedKeys(av: Availability): set<string>
  {
    set k | k in av && av[k] == OCCUPIED
  }

  /** `availableSlotCount`: the bookable hours (all slots but the closing one)
      minus the number of "occupied" values in the map. */
  function AvailableSlotCount(slots: seq<string>, av: Availability): int
  {
    |slots| - 1 - |OccupiedKeys(av)|
  }

  /** The first `n` entries of a list without repeats form a set of `n` values. */
  lemma {:induction false} PrefixSetSize(s: seq<string>, n: nat)
    requires Distinct(s) && n <= |s|
    ensures |set i | 0 <= i < n :: s[i]| == n
  {
    if n > 0 {
      PrefixSetSize(s, n - 1);
      var prev := set i | 0 <= i < n - 1 :: s[i];
      assert (set i | 0 <= i < n :: s[i]) == prev + {s[n - 1]};
      assert s[n - 1] !in prev;
    }
  }

  /** The bookable hours: every slot but the closing one. */
  function Bookable(slots: seq<string>): set<string>
  {
    set i | 0 <= i < |slots| - 1 :: slots[i]
  }

  /** The bookable hours that are not occupied. */
  function FreeBookable(slots: seq<string>, av: Availability): set<string>
  {
    set i | 0 <= i < |slots| - 1 && !IsOccupied(av, slots[i]) :: slots[i]
  }

  /** When every key names a bookable hour, the occupied keys and the free
      bookable hours split the bookable hours between them. */
  lemma OccupiedFreeSplit(slots: seq<string>, av: Availability)
    requires |slots| >= 1 && forall k :: k in av ==> k in slots[..|slots| - 1]
    ensures OccupiedKeys(av) + FreeBookable(slots, av) == Bookable(slots)
    ensures OccupiedKeys(av) * FreeBookable(slots, av) == {}
  {
    var n := |slots| - 1;
    forall k | k in OccupiedKeys(av) ensures k in Bookable(slots) {
      var j :| 0 <= j < n && slots[..n][j] == k;
      assert slots[j] == k;
    }
  }

  /** When the backend reports only bookable hours, the free count shown lies
      between zero and the number of bookable hours, it is the number of bookable
      hours that are not occupied, and it is the maximum exactly when none is. */
  lemma AvailableSlotCountMeaning(slots: seq<string>, av: Availability)
    requires Distinct(slots) && |slots| >= 1
    requires forall k :: k in av ==> k in slots[..|slots| - 1]
    ensures 0 <= AvailableSlotCount(slots, av) <= |slots| - 1
    ensures AvailableSlotCount(slots, av) == |FreeBookable(slots, av)|
    ensures AvailableSlotCount(slots, av) == |slots| - 1 <==>
      forall i :: 0 <= i < |slots| - 1 ==> !IsOccupied(av, slots[i])
  {
    PrefixSetSize(slots, |slots| - 1);
    OccupiedFreeSplit(slots, av);
    if AvailableSlotCount(slots, av) == |slots| - 1 {
      assert OccupiedKeys(av) == {};
      forall i | 0 <= i < |slots| - 1 ensures !IsOccupied(av, slots[i]) {
        assert slots[i] !in OccupiedKeys(av);
      }
    } else {
      var k :| k in OccupiedKeys(av);
      var j :| 0 <= j < |slots| - 1 && slots[..|slots| - 1][j] == k;
      assert IsOccupied(av, slots[j]);
    }
  }

  /** What the page posts to create a reservation; amounts are in cents. */
  datatype ReservationRequest = ReservationRequest(
    id_cancha: string,
    fecha_hora_inicio: string,
    fecha_hora_fin: string,
    precio_total: int)

  /** The page's state. The court id comes from the URL. */
  class SlotPage {
    const slots: seq<string>
    const courtId: string
    var canchaNombre: string
    var canchaPrecio: int
    var availability: Availability
    var isLoading: bool
    var startSlot: Option<string>
    var endSlot: Option<string>
    var message: Option<Message>

    ghost predicate Valid()
      reads this
    {
      Distinct(slots) && WellFormed(slots, Selection(startSlot, endSlot))
    }

    function CurrentSelection(): Selection
      reads this
    {
      Selection(startSlot, endSlot)
    }

    constructor (courtId: string)
      ensures Valid() && slots == SlotTable() && this.courtId == courtId
      ensures canchaNombre == "Cargando..." && canchaPrecio == 0
      ensures availability == map[] && isLoading
      ensures startSlot.None? && endSlot.None? && message.None?
    {
      var all := GenerateTimeSlots();
      SlotTableDistinct();
      slots := all;
      this.courtId := courtId;
      canchaNombre := "Cargando...";
      canchaPrecio := 0;
      availability := map[];
      isLoading := true;
      startSlot := None;
      endSlot := None;
      message := None;
    }

    /** The loading effect: the court's name and hourly price, then the day's
        availability. `court` and `day` are the two responses (`None`: that request
        failed, and the second is not made when the first fails); a failure shows
        the load error and keeps what was loaded before it. */
    method LoadAvailability(court: Option<(string, int)>, day: Option<Availability>)
      modifies this`canchaNombre, this`canchaPrecio, this`availability, this`isLoading, this`message
      ensures court.Some? ==> canchaNombre == court.value.0 && canchaPrecio == court.value.1
      ensures court.None? ==> canchaNombre == old(canchaNombre) && canchaPrecio == old(canchaPrecio)
      ensures availability == if court.Some? && day.Some? then day.value else old(availability)
      ensures message == if court.Some? && day.Some? then None else Some(LoadFailed)
      ensures !isLoading
    {
      isLoading := true;
      message := None;
      if court.None? {
        message := Some(LoadFailed);
      } else {
        canchaNombre := court.value.0;
        canchaPrecio := court.value.1;
        if day.None? {
          message := Some(LoadFailed);
        } else {
          availability := day.value;
        }
      }
      isLoading := false;
    }

    /** `handleSlotClick`, step by step as the page runs it. The page's setters
        only take effect when it next renders, so the new start, end and message
        are computed first and stored together at the end. */
    method HandleSlotClick(slot: string)
      requires Valid() && slot in slots
      modifies this`startSlot, this`endSlot, this`message
      ensures Valid()
      ensures ClickResult(CurrentSelection(), message) == Click(slots, availability, old(CurrentSelection()), slot)
    {
      ghost var expected := Click(slots, availability, CurrentSelection(), slot);
      var newStart, newEnd, newMessage := startSlot, endSlot, None;
      var clickedIdx := IndexOf(slots, slot);
      if IsOccupied(availability, slot) || clickedIdx + 1 >= |slots| {
        newStart, newEnd, newMessage := None, None, Some(SlotUnavailable);
      } else if startSlot == Some(slot) {
        newStart, newEnd := None, None;
      } else if startSlot.None? {
        var nextSlot := slots[clickedIdx + 1];
        if IsOccupied(availability, nextSlot) {
          newMessage := Some(MinimumHourUnavailable);
        } else {
          newStart, newEnd := Some(slot), Some(nextSlot);
        }
      } else {
        var startIdx := IndexOf(slots, startSlot.value);
        var newStartIdx := if startIdx < clickedIdx then startIdx else clickedIdx;
        var newEndIdx := if startIdx < clickedIdx then clickedIdx else startIdx;
        if newEndIdx + 1 >= |slots| {
          newMessage := Some(PastClosing);
        } else {
          var i := newStartIdx;
          var blocked := false;
          while i <= newEndIdx && !blocked
            invariant newStartIdx <= i <= newEndIdx + 1
            invariant forall k :: newStartIdx <= k < i ==> !IsOccupied(availability, slots[k])
            invariant blocked ==> i <= newEndIdx && IsOccupied(availability, slots[i])
            decreases newEndIdx + 1 - i, !blocked
          {
            if IsOccupied(availability, slots[i]) {
              blocked := true;
            } else {
              i := i + 1;
            }
          }
          assert blocked <==> RangeOccupied(slots, availability, newStartIdx, newEndIdx);
          if blocked {
            newStart, newEnd, newMessage := None, None, Some(RangeIncludesOccupied);
          } else if newEndIdx - newStartIdx + 1 < 1 {
            newStart, newEnd, newMessage := None, None, Some(BlockTooShort);
          } else {
            newStart, newEnd := Some(slots[newStartIdx]), Some(slots[newEndIdx + 1]);
          }
        }
      }
      assert ClickResult(Selection(newStart, newEnd), newMessage) == expected;
      startSlot, endSlot, message := newStart, newEnd, newMessage;
    }

    /** The confirm button is disabled while the block is incomplete or the page is loading. */
    function ConfirmDisabled(): bool
      reads this
    {
      startSlot.None? || endSlot.None? || isLoading
    }

    /** `handleConfirmReservation`. `dateText` is the chosen day as `YYYY-MM-DD`,
        `fechaLabel` its long Spanish rendering, and `created` the id the backend
        returns for the new pending reservation (`None`: the request failed). A
        request is sent exactly when a block is selected, for the hourly price
        times the number of hours, and the next page receives that same amount. */
    method HandleConfirmReservation(dateText: string, fechaLabel: string, created: Option<nat>)
      returns (request: Option<ReservationRequest>, next: Option<ConfirmationState>)
      requires Valid()
      modifies this`message
      ensures request.Some? <==> startSlot.Some?
      ensures request.Some? ==>
        request.value == ReservationRequest(courtId,
          dateText + " " + startSlot.value + ":00", dateText + " " + endSlot.value + ":00",
          canchaPrecio * Duration(slots, CurrentSelection()))
      ensures next.Some? <==> request.Some? && created.Some?
      ensures next.Some? ==>
        next.value == ConfirmationState(created, Some(canchaNombre), Some(fechaLabel),
          Some(startSlot.value + " - " + endSlot.value), Some(request.value.precio_total))
      ensures message == if startSlot.None? then Some(SelectBlockFirst)
        else if created.None? then Some(CreateFailed) else old(message)
    {
      request, next := None, None;
      if startSlot.None? || endSlot.None? {
        message := Some(SelectBlockFirst);
        return;
      }
      var startIdx := IndexOf(slots, startSlot.value);
      var endIdx := IndexOf(slots, endSlot.value);
      var durationSlots := endIdx - startIdx;
      var montoTotal := canchaPrecio * durationSlots;
      var inicio := dateText + " " + startSlot.value + ":00";
      var fin := dateText + " " + endSlot.value + ":00";
      request := Some(ReservationRequest(courtId, inicio, fin, montoTotal));
      if created.None? {
        message := Some(CreateFailed);
        return;
      }
      next := Some(ConfirmationState(created, Some(canchaNombre), Some(fechaLabel),
        Some(startSlot.value + " - " + endSlot.value), Some(montoTotal)));
    }
  }
}
