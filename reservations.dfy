/** The reservations tab of the profile (Reservations.jsx): the status badge of
    each reservation, the actions its status allows, cancellation and the
    change dialog. The confirmation answer and the server's answers are inputs. */
module Reservations {
  import opened Common
  import ModalModificarReserva

  /** A reservation as the tab lists it. */
  datatype Reserva = Reserva(id_reserva: nat, id_cancha: nat, cancha_nombre: string, estado: string, precio_total: int)

  /** Lower-case letters `toUpperCase` maps one to one within Latin-1: a-z and
      à-þ except the division sign. */
  predicate IsLowerLatin(c: char) {
    ('a' <= c <= 'z') || ('à' <= c <= 'þ' && c != '÷')
  }

  /** `toUpperCase` on one such character; every other character is kept. */
  function UpperChar(c: char): (u: char)
    ensures IsLowerLatin(c) ==> u as int == c as int - 32
    ensures !IsLowerLatin(c) ==> u == c
    ensures !IsLowerLatin(u)
  {
    if IsLowerLatin(c) then (c as int - 32) as char else c
  }

  /** `estado.charAt(0).toUpperCase() + estado.slice(1)`. */
  function Capitalize(s: string): (r: string)
    ensures |r| == |s|
    ensures |s| > 0 ==> r[0] == UpperChar(s[0]) && r[1..] == s[1..]
  {
    if s == [] then [] else [UpperChar(s[0])] + s[1..]
  }

  /** Capitalising twice is capitalising once, and the badge text differs from
      the status only in its first character. */
  lemma CapitalizeIdempotent(s: string)
    ensures Capitalize(Capitalize(s)) == Capitalize(s)
    ensures forall i :: 1 <= i < |s| ==> Capitalize(s)[i] == s[i]
  {
    if s != [] {
      var r := Capitalize(s);
      assert r[0] == UpperChar(s[0]) && !IsLowerLatin(r[0]);
      assert Capitalize(r) == [UpperChar(r[0])] + r[1..];
    }
  }

  /** A status starting with a lower-case letter shows that letter in upper case. */
  lemma CapitalizeLower(c: char, rest: string, upper: char)
    requires IsLowerLatin(c) && upper as int == c as int - 32
    ensures Capitalize([c] + rest) == [upper] + rest
  {
    assert ([c] + rest)[1..] == rest;
  }

  /** The four statuses the backend uses are shown capitalised. */
  lemma KnownStatusLabels()
    ensures Capitalize("pendiente") == "Pendiente"
    ensures Capitalize("confirmada") == "Confirmada"
    ensures Capitalize("cancelada") == "Cancelada"
    ensures Capitalize("completada") == "Completada"
  {
    assert Capitalize("pendiente") == "Pendiente" by {
      CapitalizeLower('p', "endiente", 'P');
      assert "pendiente" == ['p'] + "endiente" && "Pendiente" == ['P'] + "endiente";
    }
    assert Capitalize("confirmada") == "Confirmada" by {
      CapitalizeLower('c', "onfirmada", 'C');
      assert "confirmada" == ['c'] + "onfirmada" && "Confirmada" == ['C'] + "onfirmada";
    }
    assert Capitalize("cancelada") == "Cancelada" by {
      CapitalizeLower('c', "ancelada", 'C');
      assert "cancelada" == ['c'] + "ancelada" && "Cancelada" == ['C'] + "ancelada";
    }
    assert Capitalize("completada") == "Completada" by {
      CapitalizeLower('c', "ompletada", 'C');
      assert "completada" == ['c'] + "ompletada" && "Completada" == ['C'] + "ompletada";
    }
  }

  /** The badge colours of `S_STYLES`, with gray for any other status. */
  datatype BadgeStyle = YellowBadge | GreenBadge | RedBadge | BlueBadge | GrayBadge

  function BadgeFor(estado: string): (b: BadgeStyle)
    ensures b == GrayBadge <==>
      estado != "pendiente" && estado != "confirmada" && estado != "cancelada" && estado != "completada"
    ensures b == GreenBadge <==> estado == "confirmada"
  {
    if estado == "pendiente" then YellowBadge
    else if estado == "confirmada" then GreenBadge
    else if estado == "cancelada" then RedBadge
    else if estado == "completada" then BlueBadge
    else GrayBadge
  }

  /** The buttons and links of a reservation card. */
  datatype Action = Modify | Cancel | Review

  /** A confirmed reservation can be changed or cancelled; a completed one
      reviewed; any other offers nothing. */
  function ActionsFor(estado: string): (r: seq<Action>)
    ensures Modify in r <==> estado == "confirmada"
    ensures Cancel in r <==> estado == "confirmada"
    ensures Review in r <==> estado == "completada"
    ensures !(Cancel in r && Review in r)
  {
    if estado == "confirmada" then [Modify, Cancel]
    else if estado == "completada" then [Review]
    else []
  }

  /** A cancelled or pending reservation can be neither changed nor reviewed. */
  lemma NoActionsOtherwise(estado: string)
    requires estado != "confirmada" && estado != "completada"
    ensures ActionsFor(estado) == []
  {
  }

  /** What the change dialog receives about a reservation. */
  function ForDialog(r: Reserva): (m: ModalModificarReserva.Reservation)
    ensures m.id_reserva == r.id_reserva && m.id_cancha == r.id_cancha && m.precio_total == r.precio_total
  {
    ModalModificarReserva.Reservation(r.id_reserva, r.id_cancha, r.precio_total)
  }

  /** The tab's state. */
  class ReservationsTab {
    var reservas: seq<Reserva>
    var isLoading: bool
    var error: Option<string>
    var isModalOpen: bool
    var selectedReserva: Option<Reserva>

    constructor ()
      ensures reservas == [] && isLoading && error.None?
      ensures !isModalOpen && selectedReserva.None?
    {
      reservas := [];
      isLoading := true;
      error := None;
      isModalOpen := false;
      selectedReserva := None;
    }

    /** `fetchReservas`: on failure the fixed message is shown; a success does
        not clear an earlier message. */
    method FetchReservas(response: Option<seq<Reserva>>)
      modifies this`reservas, this`isLoading, this`error
      ensures response.Some? ==> reservas == response.value && error == old(error)
      ensures response.None? ==> reservas == old(reservas) && error == Some("No se pudieron cargar tus reservas.")
      ensures !isLoading
    {
      isLoading := true;
      if response.Some? {
        reservas := response.value;
      } else {
        error := Some("No se pudieron cargar tus reservas.");
      }
      isLoading := false;
    }

    /** `handleCancelar`: the request is sent only after confirmation, and the
        list is fetched again only when the server accepts it. */
    method HandleCancelar(idReserva: nat, confirmed: bool, ok: bool) returns (requested: bool, refetch: bool)
      ensures requested == confirmed
      ensures refetch <==> confirmed && ok
    {
      if !confirmed {
        return false, false;
      }
      requested := true;
      refetch := ok;
    }

    /** `handleOpenModal`. */
    method OpenModal(r: Reserva)
      modifies this`selectedReserva, this`isModalOpen
      ensures selectedReserva == Some(r) && isModalOpen
    {
      selectedReserva := Some(r);
      isModalOpen := true;
    }

    /** `handleCloseModal`: both the selection and the open flag are cleared. */
    method CloseModal()
      modifies this`selectedReserva, this`isModalOpen
      ensures selectedReserva.None? && !isModalOpen
    {
      selectedReserva := None;
      isModalOpen := false;
    }

    /** `handleSaveSuccess`: close the dialog, then fetch the list again. */
    method SaveSuccess() returns (refetch: bool)
      modifies this`selectedReserva, this`isModalOpen
      ensures selectedReserva.None? && !isModalOpen && refetch
    {
      CloseModal();
      refetch := true;
    }
  }
}
