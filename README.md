# Booking front-end rules, modelled in Dafny

This project models the client-side rules of a React front-end for booking
sports courts ("canchas"). These are the rules that decide what the browser
sends and shows. The network, the clock and the browser dialogs are inputs.

- **Booking wizard.** The date step shows a month grid that can be paged.
  Days before today cannot be picked. The hour step offers 15 hourly slots
  from "09:00" to "23:00" and a click-driven range selection over a
  day's availability. The total is price × hours. The confirmation page
  fills in defaults and hands the reservation over to the payment page.
  The payment page cleans each field, auto-formats the expiry date and
  validates the form in a fixed order.
- **The change dialog for an existing reservation.** Accepted clicks always
  give a one-hour block, and the reservation's original price is kept.
- **Smaller pages:**
  - company approval by an administrator;
  - a company's venues (create, edit, delete);
  - favourites;
  - the reservations tab (badge, allowed actions, cancel);
  - court reviews (stars, guards);
  - the company registration request (11-digit RUC);
  - sign-up (password checks);
  - the session holder (login, logout, session check).

Each page whose handlers update state step by step is a class. Its fields
are the page's state variables and its methods are the handlers, with
`modifies` clauses. The rules those handlers apply are pure functions:

- the click transition `SeleccionHorario.Click`;
- `DetallePago.FormatExpiry` and `DetallePago.Validate`;
- the list updates `ListOps.Replaced` and `ListOps.Removed`;
- the calendar arithmetic of `Calendar`.

The methods are proved equal to those functions, and the properties are
proved as lemmas about the functions. The two slot pages are stated over
any list of distinct slot labels. The constructors establish that this list
is the fixed 15-entry table.

Modules:

- `Common`: option type, ASCII digits, ECMAScript white space, `trim`, decimal rendering, `padStart`.
- `ListOps`: the `map`-replace and `filter` list updates.
- `TimeSlots`: the slot table and `indexOf`.
- `Calendar`: JavaScript `Date` month roll-over, month lengths, weekdays, day numbers.
- `Wizard`: the navigation state records.
- `SeleccionFecha`, `SeleccionHorario`, `ConfirmacionFinal`, `DetallePago`: the wizard steps.
- `ModalModificarReserva`: the change dialog.
- The remaining pages: `GestionEmpresas`, `MisSedes`, `Favorites`, `Reservations`, `DetalleCancha`, `SolicitudEmpresa`, `Registrar`, `AuthContext`.

Amounts are integers; read them as cents.

## Model

| member | source | states |
|---|---|---|
| `Common.TrimStart` | src/pages/DetalleCancha/DetallePago.jsx:94 | the result is a suffix of the input and everything dropped before it is white space |
| `Common.TrimEnd` | src/pages/DetalleCancha/DetallePago.jsx:94 | the result is a prefix of the input and everything dropped after it is white space |
| `Common.TrimEmptyIffBlank` | src/pages/Admin/GestionEmpresas.jsx:104 | `s.trim() === ""` holds exactly when every character is white space |
| `Common.TrimShorter` | src/pages/DetalleCancha/DetallePago.jsx:94 | trimming never lengthens a string |
| `Common.DigitChar` | src/pages/DetalleCancha/SeleccionHorario.jsx:14 | a digit value below 10 renders as an ASCII digit |
| `Common.DigitValue` | src/pages/DetalleCancha/SeleccionHorario.jsx:14 | reading an ASCII digit gives a value below 10 that renders back as the same character |
| `Common.DecimalString` | src/pages/ConfirmacionFinal.jsx:29 | `n.toString()` is a non-empty run of digits without a leading zero (except for 0) |
| `Common.DecimalRoundTrip` | src/pages/ConfirmacionFinal.jsx:29 | reading back the rendered number gives the number |
| `Common.DecimalStringInjective` | src/pages/ConfirmacionFinal.jsx:29 | distinct numbers render differently |
| `Common.PadStart` | src/pages/DetalleCancha/SeleccionHorario.jsx:14 | `padStart` gives the target width (or the input when already wider), keeps the input as the suffix and fills the rest with the pad character |
| `ListOps.Replaced` | src/pages/Empresa/MisSedes.jsx:151 | the list keeps its length; entries with the saved key become the saved record and every other entry stays in place |
| `ListOps.ReplacedNoMatch` | src/pages/Admin/GestionEmpresas.jsx:126 | saving a record whose key no entry has leaves the list unchanged |
| `ListOps.ReplacedIdempotent` | src/pages/Admin/GestionEmpresas.jsx:126 | saving the same record twice equals saving it once |
| `ListOps.Removed` | src/pages/Empresa/MisSedes.jsx:161 | no survivor carries the removed key, nothing new appears, the list does not grow |
| `ListOps.RemovedKeepsOthers` | src/pages/Profile/Favorites.jsx:84 | every entry with another key survives exactly as many times as it occurred |
| `ListOps.RemovedAppend` | src/pages/Empresa/MisSedes.jsx:161 | filtering distributes over concatenation, so survivors keep their order |
| `ListOps.RemovedNoMatch` | src/pages/Empresa/MisSedes.jsx:161 | removing a key nobody has leaves the list unchanged |
| `ListOps.RemovedIdempotent` | src/pages/Profile/Favorites.jsx:84 | removing the same key twice equals removing it once |
| `TimeSlots.StatusOf` | src/pages/DetalleCancha/SeleccionHorario.jsx:170 | `availability[slot] \|\| 'unavailable'`: a non-empty status, the stored one when it is non-empty |
| `TimeSlots.HourLabelTemplate` | src/pages/DetalleCancha/SeleccionHorario.jsx:14 | the template `${h.toString().padStart(2, '0')}:00` gives hour `h`'s two zero-padded digits followed by ":00" |
| `TimeSlots.ClosingLabel` | src/pages/DetalleCancha/SeleccionHorario.jsx:14-16 | the pushed closing label "23:00" is what the loop's template would give hour 23 |
| `TimeSlots.GenerateTimeSlots` | src/pages/DetalleCancha/SeleccionHorario.jsx:11-18 | the push loop yields 15 entries, entry `i` being the label of hour 9 + i |
| `TimeSlots.SlotTableMatches` | src/components/ModalModificarReserva.jsx:9-16 | any 15-entry list of those labels ending in "23:00" is the slot table |
| `TimeSlots.HourLabelsEntries` | src/pages/DetalleCancha/SeleccionHorario.jsx:13-15 | the labels of `count` hours from `first` have one entry per hour, entry `i` being the label of hour `first + i` |
| `TimeSlots.PushLabel` | src/pages/DetalleCancha/SeleccionHorario.jsx:13-15 | pushing the next hour's label keeps every entry the label of its hour |
| `TimeSlots.SlotTableEntries` | src/pages/DetalleCancha/SeleccionHorario.jsx:11-18 | the table has 15 entries, entry `i` being the label of hour 9 + i |
| `TimeSlots.SlotTableEnds` | src/pages/DetalleCancha/SeleccionHorario.jsx:11-18 | the table runs from "09:00" to "23:00" |
| `TimeSlots.HourLabelsOrdered` | src/pages/DetalleCancha/SeleccionHorario.jsx:14 | a later hour has a lexicographically later label |
| `TimeSlots.HourLabelInjective` | src/pages/DetalleCancha/SeleccionHorario.jsx:14 | distinct hours have distinct labels |
| `TimeSlots.SlotTableIncreasing` | src/pages/DetalleCancha/SeleccionHorario.jsx:11-18 | the table is strictly increasing |
| `TimeSlots.IndexOf` | src/pages/DetalleCancha/SeleccionHorario.jsx:91 | `indexOf`: -1 exactly when absent, otherwise the first position holding the value |
| `TimeSlots.IndexOfDistinct` | src/pages/DetalleCancha/SeleccionHorario.jsx:91 | in a list without repeats, `indexOf` of entry `i` is `i` |
| `TimeSlots.SlotTableDistinct` | src/pages/DetalleCancha/SeleccionHorario.jsx:11-18 | the table has no repeated label |
| `TimeSlots.SlotIndex` | src/pages/DetalleCancha/SeleccionHorario.jsx:91 | looking up table entry `i` gives back `i` |
| `Calendar.DaysInYear` | src/pages/DetalleCancha/SeleccionFecha.jsx:42 | a year has 365 or 366 days |
| `Calendar.DaysInMonth` | src/pages/DetalleCancha/SeleccionFecha.jsx:42 | a month has 28 to 31 days, and 29 exactly for February of a leap year |
| `Calendar.NormalizeMonth` | src/pages/DetalleCancha/SeleccionFecha.jsx:47 | the roll-over of `new Date(y, m, 1)`: the month lands in 0..11 and the month count is kept |
| `Calendar.NormalizeMonthInRange` | src/pages/DetalleCancha/SeleccionFecha.jsx:47 | an in-range month is left alone |
| `Calendar.DaysBeforeMonth` | src/pages/DetalleCancha/SeleccionFecha.jsx:42 | the days before month `m` lie between 28·m and 31·m |
| `Calendar.WeekDay` | src/pages/DetalleCancha/SeleccionFecha.jsx:7 | `getDay()` is in 0..6 |
| `Calendar.FirstDayIndex` | src/pages/DetalleCancha/SeleccionFecha.jsx:43 | the Monday-based offset of the 1st is in 0..6 |
| `Calendar.FirstDayIndexMondayBased` | src/pages/DetalleCancha/SeleccionFecha.jsx:43 | the offset is 0 exactly for a Monday, 6 exactly for a Sunday, and one less than the weekday modulo 7 |
| `Calendar.DayFromYearStep` | src/pages/DetalleCancha/SeleccionFecha.jsx:42 | the next year starts one year length later |
| `Calendar.DaysBeforeYearEnd` | src/pages/DetalleCancha/SeleccionFecha.jsx:42 | the twelve month lengths add up to the year length |
| `Calendar.LastDayOfMonth` | src/pages/DetalleCancha/SeleccionFecha.jsx:42 | day 0 of the next month is the last day of this month, so `new Date(y, m + 1, 0).getDate()` is the month length |
| `Calendar.NextMonthFirstDay` | src/pages/DetalleCancha/SeleccionFecha.jsx:42-47 | the next month's 1st follows the last day, and its grid offset moves on by the month length modulo 7 |
| `Calendar.WeekShift` | src/pages/DetalleCancha/SeleccionFecha.jsx:43 | `n` days later the Monday-based position moves `n` columns on, modulo 7 |
| `Calendar.DateWithinYear` | src/pages/DetalleCancha/SeleccionFecha.jsx:68-71 | a valid date's day number lies within its year |
| `Calendar.DaysBeforeUpTo` | src/pages/DetalleCancha/SeleccionFecha.jsx:68-71 | later months start at least 28 days per month later |
| `Calendar.DayFromYearIncreasing` | src/pages/DetalleCancha/SeleccionFecha.jsx:68-71 | later years start at least 365 days per year later |
| `Calendar.EarlierYear` | src/pages/DetalleCancha/SeleccionFecha.jsx:68-71 | a valid date in an earlier year has a smaller day number |
| `Calendar.EarlierMonth` | src/pages/DetalleCancha/SeleccionFecha.jsx:68-71 | a valid date in an earlier month of the same year has a smaller day number |
| `Calendar.DateNumberOrder` | src/pages/DetalleCancha/SeleccionFecha.jsx:68-71 | for valid dates, comparing midnight timestamps is comparing year, month, day in order (both directions) |
| `Calendar.DateNumberInjective` | src/pages/DetalleCancha/SeleccionFecha.jsx:68-71 | distinct valid dates have distinct day numbers |
| `SeleccionFecha.StepMonth` | src/pages/DetalleCancha/SeleccionFecha.jsx:45-49 | `changeMonth(delta)` lands on a month in 0..11 `delta` months away |
| `SeleccionFecha.MonthCountDetermines` | src/pages/DetalleCancha/SeleccionFecha.jsx:45-49 | an in-range year and month are fixed by their month count |
| `SeleccionFecha.StepMonthRollover` | src/pages/DetalleCancha/SeleccionFecha.jsx:45-49 | "next" from December is January of the next year, "previous" from January is December of the year before, other steps keep the year |
| `SeleccionFecha.StepMonthCompose` | src/pages/DetalleCancha/SeleccionFecha.jsx:45-49 | two steps equal one step by the sum, so "next" then "previous" returns to the start |
| `SeleccionFecha.IsAvailableMeaning` | src/pages/DetalleCancha/SeleccionFecha.jsx:66-79 | a grid day is available exactly when it is today or later in calendar order |
| `SeleccionFecha.DayStyleFor` | src/pages/DetalleCancha/SeleccionFecha.jsx:166-173 | the selected day is drawn selected whatever its availability; otherwise available days are green |
| `SeleccionFecha.DatePicker.constructor` | src/pages/DetalleCancha/SeleccionFecha.jsx:17-19 | the grid opens on today's month with nothing selected and not confirming |
| `SeleccionFecha.DatePicker.DaysShown` | src/pages/DetalleCancha/SeleccionFecha.jsx:42 | the grid shows 28..31 days, exactly the valid days of the month, ending on the day `new Date(y, m + 1, 0)` falls on |
| `SeleccionFecha.DatePicker.GridOffset` | src/pages/DetalleCancha/SeleccionFecha.jsx:43 | the number of blank cells is in 0..6 and is 0 exactly when the 1st is a Monday |
| `SeleccionFecha.DatePicker.ChangeMonth` | src/pages/DetalleCancha/SeleccionFecha.jsx:45-49 | the shown month moves by `delta` with roll-over and the selection is cleared |
| `SeleccionFecha.DatePicker.HandleDayClick` | src/pages/DetalleCancha/SeleccionFecha.jsx:66-79 | a day on or after today is selected; an earlier one alerts and changes nothing |
| `SeleccionFecha.DatePicker.HandleConfirmDate` | src/pages/DetalleCancha/SeleccionFecha.jsx:52-62 | without a day (or with day 0) nothing is forwarded; otherwise confirming starts and (year, month, day) is forwarded |
| `SeleccionFecha.ForwardedDateIsValid` | src/pages/DetalleCancha/SeleccionFecha.jsx:52-79 | a grid day that passed the click guard is forwarded as a real date not before today |
| `SeleccionHorario.Click` | src/pages/DetalleCancha/SeleccionHorario.jsx:95-160 | every click keeps start < end within the list; a new selection contains no occupied slot; with no message, a block exists or the start was clicked again |
| `SeleccionHorario.ClickUnavailableClears` | src/pages/DetalleCancha/SeleccionHorario.jsx:102-107 | an occupied slot or the closing slot clears both ends with the "not available" message |
| `SeleccionHorario.ClickOnStartTogglesOff` | src/pages/DetalleCancha/SeleccionHorario.jsx:109-113 | clicking the current start clears the selection without a message |
| `SeleccionHorario.FirstClick` | src/pages/DetalleCancha/SeleccionHorario.jsx:115-124 | with no start, an occupied successor keeps the empty selection with the minimum-hour message; otherwise the block is [slot, next) |
| `SeleccionHorario.RangeClick` | src/pages/DetalleCancha/SeleccionHorario.jsx:127-159 | with a start, the block runs from the smaller to one past the larger index, or is cleared with a message when an occupied slot lies in between |
| `SeleccionHorario.ClickGuardsUnreachable` | src/pages/DetalleCancha/SeleccionHorario.jsx:135-156 | the "past closing" and "shorter than an hour" branches never fire |
| `SeleccionHorario.ClickDependsOnlyOnOccupancy` | src/pages/DetalleCancha/SeleccionHorario.jsx:102-142 | only "occupied" blocks: two maps that agree on which slots are occupied give the same click result |
| `SeleccionHorario.SuccessorCheckAsymmetry` | src/pages/DetalleCancha/SeleccionHorario.jsx:115-148 | the hour before an occupied slot is refused as a first click yet reachable as the end of a range |
| `SeleccionHorario.ClickKeepsFree` | src/pages/DetalleCancha/SeleccionHorario.jsx:141-148 | a selection free of occupied slots stays free after any click |
| `SeleccionHorario.Duration` | src/pages/DetalleCancha/SeleccionHorario.jsx:197-204 | a selected block lasts between 1 and 14 hours, so the `< 1` check never fires |
| `SeleccionHorario.SlotStyleMeaning` | src/pages/DetalleCancha/SeleccionHorario.jsx:163-188 | the last slot and only it is hidden; occupied wins; a shown slot is selected exactly when inside [start, end) and not occupied |
| `SeleccionHorario.NoOccupiedSelected` | src/pages/DetalleCancha/SeleccionHorario.jsx:141-181 | after any click, no occupied slot is drawn as selected |
| `SeleccionHorario.PrefixSetSize` | src/pages/DetalleCancha/SeleccionHorario.jsx:242 | the first `n` entries of a list without repeats are `n` distinct labels |
| `SeleccionHorario.OccupiedFreeSplit` | src/pages/DetalleCancha/SeleccionHorario.jsx:242 | with keys among the bookable slots, the occupied and free bookable slots partition them |
| `SeleccionHorario.AvailableSlotCountMeaning` | src/pages/DetalleCancha/SeleccionHorario.jsx:242 | the free count is in 0..14, equals the number of free bookable slots, and is 14 exactly when none is occupied |
| `SeleccionHorario.SlotPage.constructor` | src/pages/DetalleCancha/SeleccionHorario.jsx:32-41 | the page starts on the slot table, "Cargando...", price 0, empty availability, loading, nothing selected |
| `SeleccionHorario.SlotPage.LoadAvailability` | src/pages/DetalleCancha/SeleccionHorario.jsx:54-74 | name and price come from the court; the availability is stored only when both requests succeed; otherwise the load error is shown; loading ends |
| `SeleccionHorario.SlotPage.HandleSlotClick` | src/pages/DetalleCancha/SeleccionHorario.jsx:95-160 | the handler, with its scanning loop, leaves exactly the selection and message `Click` gives, and keeps the selection invariant |
| `SeleccionHorario.SlotPage.HandleConfirmReservation` | src/pages/DetalleCancha/SeleccionHorario.jsx:191-235 | no block: an error and no request; otherwise the request carries the date-time strings and price × hours, and the confirmation state is passed only when the reservation was created |
| `ModalModificarReserva.ModalClick` | src/components/ModalModificarReserva.jsx:98-112 | an occupied or closing slot clears the selection with an error; any other slot gives a one-hour block starting there |
| `ModalModificarReserva.ModalSkipsSuccessorCheck` | src/components/ModalModificarReserva.jsx:103-111 | the dialog accepts a first click before an occupied hour that the booking page refuses |
| `ModalModificarReserva.ModalSlotStyleMeaning` | src/components/ModalModificarReserva.jsx:115-133 | the last slot is hidden, occupied wins, and only the start slot is drawn selected |
| `ModalModificarReserva.ModalStyleAgreesOnOneHour` | src/components/ModalModificarReserva.jsx:115-133 | for a one-hour block the dialog draws the slots as the booking page does |
| `ModalModificarReserva.ChangeDialog.constructor` | src/components/ModalModificarReserva.jsx:30-40 | the dialog opens on the reservation's day and hours with empty availability |
| `ModalModificarReserva.ChangeDialog.ChangeMonth` | src/components/ModalModificarReserva.jsx:49-56 | the month moves with roll-over and day, hours and availability are all cleared |
| `ModalModificarReserva.ChangeDialog.ClickDay` | src/components/ModalModificarReserva.jsx:197-220 | only a day on or after today can be selected |
| `ModalModificarReserva.ChangeDialog.ReloadAvailability` | src/components/ModalModificarReserva.jsx:61-92 | no day: empty availability; success: the map is stored and the hours are cleared exactly when the start is now occupied; failure: the load error |
| `ModalModificarReserva.ChangeDialog.HandleSlotClick` | src/components/ModalModificarReserva.jsx:98-112 | the handler leaves exactly what `ModalClick` gives |
| `ModalModificarReserva.ChangeDialog.HandleSaveChanges` | src/components/ModalModificarReserva.jsx:136-165 | no day or hour: an error and no request; otherwise the new start and end with the original price; a failure shows its message or "Failed to fetch" |
| `ConfirmacionFinal.OrDefault` | src/pages/ConfirmacionFinal.jsx:20-26 | a passed field is kept, a missing one takes the default |
| `ConfirmacionFinal.Received` | src/pages/ConfirmacionFinal.jsx:20-26 | with no state every field takes its default; present fields are kept; a missing amount is 0 |
| `ConfirmacionFinal.ReservationLabel` | src/pages/ConfirmacionFinal.jsx:29 | "R-" and digits; it is "R-000000" exactly when the id is missing or 0 |
| `ConfirmacionFinal.ReservationLabelRoundTrip` | src/pages/ConfirmacionFinal.jsx:29 | a real id can be read back from its label |
| `ConfirmacionFinal.Forwarded` | src/pages/ConfirmacionFinal.jsx:47-56 | the id, amount, court, date and hour are passed on unchanged |
| `ConfirmacionFinal.HandOffKeepsAmount` | src/pages/ConfirmacionFinal.jsx:47-56 | the payment page reads the id and the amount this page showed |
| `ConfirmacionFinal.ConfirmationPage.constructor` | src/pages/ConfirmacionFinal.jsx:17-26 | the page shows the received values, details open |
| `ConfirmacionFinal.ConfirmationPage.ToggleDetails` | src/pages/ConfirmacionFinal.jsx:99 | the details box flips |
| `ConfirmacionFinal.ConfirmationPage.GoToPayment` | src/pages/ConfirmacionFinal.jsx:40-57 | nothing is forwarded exactly when the id is missing or 0; otherwise the shown values go on |
| `DetallePago.Keep` | src/pages/DetalleCancha/DetallePago.jsx:46-51 | `replace(/[^…]/g, '')`: only allowed characters remain and the text does not grow |
| `DetallePago.KeepCounts` | src/pages/DetalleCancha/DetallePago.jsx:46-51 | each allowed character keeps its count and each other character disappears |
| `DetallePago.KeepAllowed` | src/pages/DetalleCancha/DetallePago.jsx:46-51 | cleaning already clean text changes nothing |
| `DetallePago.KeepAppend` | src/pages/DetalleCancha/DetallePago.jsx:46 | cleaning distributes over concatenation |
| `DetallePago.DigitsOnly` | src/pages/DetalleCancha/DetallePago.jsx:46 | the digit filter leaves only ASCII digits |
| `DetallePago.FormatExpiry` | src/pages/DetalleCancha/DetallePago.jsx:55-72 | at most 5 characters; deleting the slash leaves the digits; otherwise more than two digits become "MM/" plus up to two more |
| `DetallePago.FormatExpiryShape` | src/pages/DetalleCancha/DetallePago.jsx:55-72 | the result is digits, with at most one '/', at position 2 |
| `DetallePago.FormatExpiryIdempotent` | src/pages/DetalleCancha/DetallePago.jsx:55-72 | reformatting a formatted value leaves it unchanged |
| `DetallePago.ReformatSlashed` | src/pages/DetalleCancha/DetallePago.jsx:55-72 | "MM/Y" and "MM/YY" are kept as they are |
| `DetallePago.ReformatDigits` | src/pages/DetalleCancha/DetallePago.jsx:55-72 | up to two digits are kept as they are |
| `DetallePago.TypedExpiryValid` | src/pages/DetalleCancha/DetallePago.jsx:66-86 | four typed digits forming a month 01–12 format to an expiry the validator accepts |
| `DetallePago.EmailLikeUnanchored` | src/pages/DetalleCancha/DetallePago.jsx:94 | the e-mail pattern is unanchored: text around a match still matches |
| `DetallePago.EmailLikeLength` | src/pages/DetalleCancha/DetallePago.jsx:94 | a matching e-mail has at least 5 characters |
| `DetallePago.ApplyChange` | src/pages/DetalleCancha/DetallePago.jsx:34-78 | only the named field changes; digit fields keep digits, the name keeps its letters, the expiry is formatted, the e-mail is stored verbatim |
| `DetallePago.ApplyChangeSanitized` | src/pages/DetalleCancha/DetallePago.jsx:34-78 | every change keeps the digit-only and name-letter invariant |
| `DetallePago.Validate` | src/pages/DetalleCancha/DetallePago.jsx:80-103 | valid exactly when all checks pass, otherwise the first failing check is the error: a bad card exactly when the card fails; a bad expiry exactly when the card passes and the expiry fails; a bad CVV exactly when both pass and the CVV fails; a bad holder exactly when those three pass and the holder and contact fail; no reservation exactly when all four pass and the id is missing or 0; never a payment refusal |
| `DetallePago.SanitizedCard` | src/pages/DetalleCancha/DetallePago.jsx:44-82 | a cleaned card field of 16 characters is never refused as a card |
| `DetallePago.Incoming` | src/pages/DetalleCancha/DetallePago.jsx:12-18 | no state gives no id and amount 0; a state gives its own id and amount |
| `DetallePago.PaymentPage.constructor` | src/pages/DetalleCancha/DetallePago.jsx:12-32 | the page starts from the incoming id and amount with an empty form |
| `DetallePago.PaymentPage.HandleChange` | src/pages/DetalleCancha/DetallePago.jsx:34-78 | the form becomes `ApplyChange` of the old form |
| `DetallePago.PaymentPage.HandleSubmitPayment` | src/pages/DetalleCancha/DetallePago.jsx:106-124 | a request is sent exactly when validation passes, carrying the incoming id and amount and the card method |
| `GestionEmpresas.GestionPayload` | src/pages/Admin/GestionEmpresas.jsx:98-107 | approve sends `{accion}` only; reject is cancelled by a dismissed prompt, refused for a blank reason, and otherwise sends the reason |
| `GestionEmpresas.InitialEditForm` | src/pages/Admin/GestionEmpresas.jsx:10-13 | the dialog starts from the company's name and RUC |
| `GestionEmpresas.Merged` | src/pages/Admin/GestionEmpresas.jsx:26 | the saved record takes name and RUC from the form and keeps id, e-mail and status |
| `GestionEmpresas.MergedUntouched` | src/pages/Admin/GestionEmpresas.jsx:10-26 | saving the untouched form gives back the company |
| `GestionEmpresas.ActionsFor` | src/pages/Admin/GestionEmpresas.jsx:198-215 | approve/reject only when pending; edit when active or rejected; the status switch goes to the other of active/rejected; nothing for other statuses |
| `GestionEmpresas.StatusSwitchTwice` | src/pages/Admin/GestionEmpresas.jsx:207-213 | switching status twice returns to the start |
| `GestionEmpresas.RoleOf` | src/pages/Admin/GestionEmpresas.jsx:131 | `user?.id_rol` is undefined exactly when nobody is logged in |
| `GestionEmpresas.AdminViewFor` | src/pages/Admin/GestionEmpresas.jsx:131-139 | the management content is shown exactly for a logged-in user with role 2; no user, or any other role, gets the access-denied notice |
| `GestionEmpresas.AdminViewAfterLogin` | src/pages/Admin/GestionEmpresas.jsx:131-139 | right after a login the management content is shown exactly when the logged-in user is an administrator |
| `GestionEmpresas.AdminDeniedAfterLogout` | src/pages/Admin/GestionEmpresas.jsx:131-139 | after a final logout the page denies access, whatever happened before |
| `GestionEmpresas.BadgeFor` | src/pages/Admin/GestionEmpresas.jsx:190-193 | green exactly for active, yellow exactly for pending |
| `GestionEmpresas.SaveEditedEmpresa` | src/pages/Admin/GestionEmpresas.jsx:125-128 | with unique ids, saving an edit changes only that entry, only in name and RUC |
| `GestionEmpresas.AdminPage.constructor` | src/pages/Admin/GestionEmpresas.jsx:69-76 | the filter starts on "pendiente", loading, no dialog |
| `GestionEmpresas.AdminPage.FetchEmpresas` | src/pages/Admin/GestionEmpresas.jsx:78-90 | success stores the list, failure its message; loading ends |
| `GestionEmpresas.AdminPage.SaveEmpresa` | src/pages/Admin/GestionEmpresas.jsx:125-128 | the list is replaced by id and the dialog closes |
| `GestionEmpresas.AdminPage.OpenEditor` | src/pages/Admin/GestionEmpresas.jsx:206-212 | the edit button opens the dialog on that company |
| `GestionEmpresas.AdminPage.CloseEditor` | src/pages/Admin/GestionEmpresas.jsx:228 | closing the dialog clears the company being edited |
| `MisSedes.CoordinateField` | src/pages/Empresa/MisSedes.jsx:11-12 | a missing or zero coordinate gives an empty field, any other is kept |
| `MisSedes.InitialForm` | src/pages/Empresa/MisSedes.jsx:8-13 | the form starts from the venue's fields when editing and empty when creating |
| `MisSedes.InitialFormOfVenue` | src/pages/Empresa/MisSedes.jsx:8-13 | a venue with non-zero coordinates is edited from exactly its data |
| `MisSedes.SavedList` | src/pages/Empresa/MisSedes.jsx:149-154 | editing replaces by id, creating appends |
| `MisSedes.SavedVenueListed` | src/pages/Empresa/MisSedes.jsx:149-154 | the list grows by one exactly when creating; the saved venue is listed unless an edit came back with an unknown id |
| `MisSedes.CreateThenDelete` | src/pages/Empresa/MisSedes.jsx:149-163 | creating a venue with a fresh id and deleting it restores the list |
| `MisSedes.DeleteKeepsOthers` | src/pages/Empresa/MisSedes.jsx:160-163 | deleting keeps other venues as often as they occurred and removes the target |
| `MisSedes.SedeDialog.constructor` | src/pages/Empresa/MisSedes.jsx:7-14 | the dialog starts from `InitialForm` |
| `MisSedes.SedeDialog.HandleSubmit` | src/pages/Empresa/MisSedes.jsx:21-37 | an update of the edited venue or a creation is sent; the answer is handed on only on success |
| `MisSedes.DeleteDialog.constructor` | src/pages/Empresa/MisSedes.jsx:83-84 | the dialog starts not deleting |
| `MisSedes.DeleteDialog.HandleDelete` | src/pages/Empresa/MisSedes.jsx:86-95 | the page is told only on success; on failure the buttons are enabled again |
| `MisSedes.VenuesPage.constructor` | src/pages/Empresa/MisSedes.jsx:122-129 | empty list, loading, no dialog |
| `MisSedes.VenuesPage.FetchSedes` | src/pages/Empresa/MisSedes.jsx:131-142 | success stores the list, failure its message; loading ends |
| `MisSedes.VenuesPage.SaveSede` | src/pages/Empresa/MisSedes.jsx:149-157 | the list becomes `SavedList` and both dialog flags are cleared |
| `MisSedes.VenuesPage.DeleteSede` | src/pages/Empresa/MisSedes.jsx:160-163 | the target's id is filtered out and the delete selection cleared |
| `MisSedes.VenuesPage.ConfirmDelete` | src/pages/Empresa/MisSedes.jsx:86-95 | the list changes only when the server accepted the delete |
| `Favorites.CardFor` | src/pages/Profile/Favorites.jsx:9-39 | an inactive court is dimmed, overlaid and its booking link blocked; an active one is not |
| `Favorites.FavoritesTab.constructor` | src/pages/Profile/Favorites.jsx:56-58 | empty list, loading, no error |
| `Favorites.FavoritesTab.FetchFavoritos` | src/pages/Profile/Favorites.jsx:60-71 | success stores the list, failure the fixed message; loading ends |
| `Favorites.FavoritesTab.HandleRemove` | src/pages/Profile/Favorites.jsx:77-89 | a request only after confirmation; the list loses the court only when the server accepts |
| `Favorites.RemoveFavorite` | src/pages/Profile/Favorites.jsx:84 | the removed court is gone, every other court stays, removing twice changes nothing more |
| `Reservations.UpperChar` | src/pages/Profile/Reservations.jsx:25 | lower-case Latin-1 letters move to upper case; the result is never lower case |
| `Reservations.Capitalize` | src/pages/Profile/Reservations.jsx:25 | same length; the first character is upper-cased and the rest unchanged |
| `Reservations.CapitalizeIdempotent` | src/pages/Profile/Reservations.jsx:25 | capitalising twice equals once |
| `Reservations.CapitalizeLower` | src/pages/Profile/Reservations.jsx:25 | a status starting with a lower-case letter is shown with that letter upper-cased and the rest unchanged |
| `Reservations.KnownStatusLabels` | src/pages/Profile/Reservations.jsx:17-25 | the four statuses show as "Pendiente", "Confirmada", "Cancelada", "Completada" |
| `Reservations.BadgeFor` | src/pages/Profile/Reservations.jsx:17-24 | gray exactly for an unknown status, green exactly for "confirmada" |
| `Reservations.ActionsFor` | src/pages/Profile/Reservations.jsx:123-149 | modify and cancel exactly when confirmed, review exactly when completed |
| `Reservations.NoActionsOtherwise` | src/pages/Profile/Reservations.jsx:123-149 | any other status offers nothing |
| `Reservations.ForDialog` | src/pages/Profile/Reservations.jsx:159-165 | the dialog receives the reservation's id, court and price |
| `Reservations.ReservationsTab.constructor` | src/pages/Profile/Reservations.jsx:32-38 | empty list, loading, dialog closed |
| `Reservations.ReservationsTab.FetchReservas` | src/pages/Profile/Reservations.jsx:41-52 | success stores the list, failure the fixed message; loading ends |
| `Reservations.ReservationsTab.HandleCancelar` | src/pages/Profile/Reservations.jsx:58-70 | a request only after confirmation; a refetch only after success |
| `Reservations.ReservationsTab.OpenModal` | src/pages/Profile/Reservations.jsx:73-76 | the dialog opens on that reservation |
| `Reservations.ReservationsTab.CloseModal` | src/pages/Profile/Reservations.jsx:78-81 | both the selection and the open flag are cleared |
| `Reservations.ReservationsTab.SaveSuccess` | src/pages/Profile/Reservations.jsx:85-88 | the dialog is closed and the list fetched again |
| `DetalleCancha.InputAgreesWithDisplay` | src/pages/DetalleCancha/DetalleCancha.jsx:72-88 | the input and the display light the same stars |
| `DetalleCancha.FilledAmong` | src/pages/DetalleCancha/DetalleCancha.jsx:69-72 | at most `n` of the first `n` stars are filled |
| `DetalleCancha.FilledCount` | src/pages/DetalleCancha/DetalleCancha.jsx:69-72 | a rating from 0 to 5 shows exactly that many filled stars |
| `DetalleCancha.FilledAllBelow` | src/pages/DetalleCancha/DetalleCancha.jsx:69-72 | all stars below the rating are filled |
| `DetalleCancha.RatingFromStar` | src/pages/DetalleCancha/DetalleCancha.jsx:82-89 | a star click gives a rating in 1..5 that fills that star and those before it and no other |
| `DetalleCancha.SubmitDisabled` | src/pages/DetalleCancha/DetalleCancha.jsx:299 | disabled exactly when no rating or a blank comment |
| `DetalleCancha.DecideReview` | src/pages/DetalleCancha/DetalleCancha.jsx:105-129 | an incomplete review is refused first, then any court but "2"; a sent review carries reservation 2, the rating and the comment |
| `DetalleCancha.ReviewForm.constructor` | src/pages/DetalleCancha/DetalleCancha.jsx:18-19 | rating 0, empty comment |
| `DetalleCancha.ReviewForm.SetRating` | src/pages/DetalleCancha/DetalleCancha.jsx:89 | a star click stores `RatingFromStar` |
| `DetalleCancha.ReviewForm.SetComment` | src/pages/DetalleCancha/DetalleCancha.jsx:293 | typing stores the comment |
| `DetalleCancha.ReviewForm.HandleSubmitReview` | src/pages/DetalleCancha/DetalleCancha.jsx:105-142 | a request only past both guards; success resets rating and comment and refetches; otherwise the form is kept |
| `SolicitudEmpresa.CheckForm` | src/pages/SolicitudEmpresa.jsx:30-38 | missing fields first, then the 11-digit RUC; valid exactly with a name and an 11-digit RUC |
| `SolicitudEmpresa.CheckFormOrder` | src/pages/SolicitudEmpresa.jsx:30-38 | an 11-character RUC with a non-digit is refused by the pattern; a missing name is reported first |
| `SolicitudEmpresa.ViewFor` | src/pages/SolicitudEmpresa.jsx:53-70 | the intended views: access denied exactly when nobody is logged in; the success view exactly for a logged-in user with a non-empty success message |
| `SolicitudEmpresa.RenderAsWritten` | src/pages/SolicitudEmpresa.jsx:53-70 | as written, rendering throws (the unimported `Link`) exactly when nobody is logged in; for a logged-in user it shows the intended view |
| `SolicitudEmpresa.LoggedOutRenderFails` | src/pages/SolicitudEmpresa.jsx:53-59 | for a logged-out visitor the intended view is access denied but the page as written throws instead |
| `SolicitudEmpresa.RenderAgreesWhenLoggedIn` | src/pages/SolicitudEmpresa.jsx:53-70 | the written and intended pages agree exactly when someone is logged in |
| `SolicitudEmpresa.CompanyRequestPage.constructor` | src/pages/SolicitudEmpresa.jsx:11-18 | three empty fields, no messages, not loading |
| `SolicitudEmpresa.CompanyRequestPage.HandleSubmit` | src/pages/SolicitudEmpresa.jsx:25-51 | messages cleared first; an invalid form sends nothing; success stores the message and empties the form; failure its message |
| `Registrar.CheckPasswords` | src/pages/Registrar.jsx:24-31 | accepted exactly when the passwords match and have at least 6 characters; a mismatch is reported before the length |
| `Registrar.MismatchFirst` | src/pages/Registrar.jsx:24-31 | a short mismatched password is reported as a mismatch |
| `Registrar.SignUpPage.constructor` | src/pages/Registrar.jsx:9-16 | empty fields, no error, not loading |
| `Registrar.SignUpPage.HandleSubmit` | src/pages/Registrar.jsx:19-54 | failing checks send nothing; the request holds name, e-mail and password only; loading ends after the request whatever its outcome |
| `AuthContext.Step` | src/context/AuthContext.jsx:14-46 | login stores the response's user; logout clears it; the session check stores the profile or nothing and ends loading |
| `AuthContext.LoadingEndsAfterCheck` | src/context/AuthContext.jsx:43-46 | after the session check has answered, loading stays off |
| `AuthContext.StaysLoaded` | src/context/AuthContext.jsx:32-49 | no event turns loading back on |
| `AuthContext.LogoutLast` | src/context/AuthContext.jsx:20-29 | after a final logout there is no user, whatever came before and whether the backend failed |
| `AuthContext.LoadingUntilCheck` | src/context/AuthContext.jsx:52-55 | until the session check answers, the provider is loading and renders no children |
| `AuthContext.StillLoading` | src/context/AuthContext.jsx:10-29 | events other than the session check keep loading on |
| `AuthContext.AuthProvider.constructor` | src/context/AuthContext.jsx:10-11 | no user, loading |
| `AuthContext.AuthProvider.Login` | src/context/AuthContext.jsx:14-17 | the state moves as `Step` on a login |
| `AuthContext.AuthProvider.Logout` | src/context/AuthContext.jsx:20-29 | the state moves as `Step` on a logout: no user |
| `AuthContext.AuthProvider.CheckSession` | src/context/AuthContext.jsx:32-49 | the state moves as `Step` on the session check's answer |

## Left out

- HTTP. Every `get`, `post`, `put` and `del` is replaced by its outcome, given as a parameter: the data on success, or a failure with its message. The request bodies are returned as values.
- Browser dialogs and navigation:
  - `window.confirm` answers are booleans, and `window.prompt` answers are options.
  - `alert`, `navigate`, `setTimeout`, `scrollTo` and `console` are not modelled. A forwarded navigation state is returned as a value.
- Dates and clocks.
  - Today's date is an input.
  - The ISO date text (`toISOString().split('T')[0]`) and the long Spanish date label (`toLocaleDateString`) are inputs. Time zones can make the ISO date differ from the local date; that is not modelled.
  - The dialog's initial hours come from `toLocaleTimeString` and are passed in as "HH:MM" labels.
- Floating point. Prices and amounts are integers; `toFixed(2)` and `parseFloat` are not modelled. Coordinates are reals.
- String lengths are counted in code points, not JavaScript's UTF-16 code units. Upper-casing covers ASCII and Latin-1 lower-case letters; other Unicode case mappings (ß, ÿ, µ, letters beyond Latin-1) are not modelled.
- JSX markup and CSS class strings. Only which style wins is modelled.
- Async ordering: stale responses, and state read after an `await`.
- Each page's own loading and error views:
  - the missing-date error view of the slot page;
  - the court-name fetch of the date page;
  - the court and gallery fetch of the detail page.
- The company status-switch request (`handleUpdateEstado`) is only a request followed by a refetch. Its target status is modelled in `GestionEmpresas.ActionsFor`.
- The company filter select is not modelled. Only its initial value "pendiente" is.
- `EmpresaEditModal` submission: only its merge (`GestionEmpresas.Merged`) and the page's save callback are modelled.
- `ModalModificarReserva.ChangeDialog.ReloadAvailability`: with no start hour, the code looks up the key "null" and clears hours that are already cleared. The model skips that lookup, which has no visible effect.

## Findings

| source | as written | input that shows it | evidently intended | confidence | as-written member | corrected member |
|---|---|---|---|---|---|---|
| src/pages/SolicitudEmpresa.jsx:57 | the access-denied markup renders `<Link>`, but the module imports only `useNavigate` from the router (line 4), so the render throws `ReferenceError: Link is not defined` | a visit to the unprotected route `/soy-empresa` with nobody logged in (`user` is `null`) | the "Acceso Denegado" notice with a link to the login page (`import { Link, useNavigate }`) | not executed | `SolicitudEmpresa.LoggedOutRenderFails` | `SolicitudEmpresa.ViewFor` |
