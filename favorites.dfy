/** The favourites tab of the profile (Favorites.jsx): the user's favourite
    courts, each with a booking link that is blocked while the court is
    inactive, and a button that removes it from the list. The confirmation
    answer and the server's answers are inputs. */
module Favorites {
  import opened Common
  import opened ListOps

  /** A favourite court; `estado` is its truthiness (active or not). */
  datatype Cancha = Cancha(id: nat, nombre: string, ubicacion: string, estado: bool)

  function CanchaId(c: Cancha): nat {
    c.id
  }

  /** How a card is drawn and whether its "Reservar" link navigates. */
  datatype CardView = CardView(dimmed: bool, maintenanceOverlay: bool, reservarNavigates: bool)

  /** `FavoriteCard`: an inactive court is dimmed, covered by the maintenance
      overlay, and its booking link's navigation is prevented; an active one
      is none of these. */
  function CardFor(c: Cancha): (v: CardView)
    ensures v.reservarNavigates <==> c.estado
    ensures v.dimmed == v.maintenanceOverlay == !v.reservarNavigates
  {
    var isActiva := c.estado;
    CardView(!isActiva, !isActiva, isActiva)
  }

  /** The tab's state. */
  class FavoritesTab {
    var favoritos: seq<Cancha>
    var isLoading: bool
    var error: Option<string>

    constructor ()
      ensures favoritos == [] && isLoading && error.None?
    {
      favoritos := [];
      isLoading := true;
      error := None;
    }

    /** `fetchFavoritos`: on failure the fixed message is shown; a success does
        not clear an earlier message. */
    method FetchFavoritos(response: Option<seq<Cancha>>)
      modifies this`favoritos, this`isLoading, this`error
      ensures response.Some? ==> favoritos == response.value && error == old(error)
      ensures response.None? ==> favoritos == old(favoritos) && error == Some("No se pudieron cargar tus favoritos.")
      ensures !isLoading
    {
      isLoading := true;
      if response.Some? {
        favoritos := response.value;
      } else {
        error := Some("No se pudieron cargar tus favoritos.");
      }
      isLoading := false;
    }

    /** `handleRemove(idCancha)`. `confirmed` is the answer to the confirmation
        and `ok` the server's answer to the delete. The request is sent only
        after confirmation; the list changes only when the server accepts. */
    method HandleRemove(idCancha: nat, confirmed: bool, ok: bool) returns (requested: bool)
      modifies this`favoritos
      ensures requested == confirmed
      ensures favoritos == if confirmed && ok then Removed(old(favoritos), CanchaId, idCancha) else old(favoritos)
    {
      if !confirmed {
        return false;
      }
      requested := true;
      if ok {
        favoritos := Removed(favoritos, CanchaId, idCancha);
      }
    }
  }

  /** Removing a court leaves no card for it, keeps every other court, and a
      second removal of the same court changes nothing. */
  lemma RemoveFavorite(s: seq<Cancha>, id: nat, other: Cancha)
    requires other.id != id
    ensures forall c :: c in Removed(s, CanchaId, id) ==> c.id != id
    ensures multiset(Removed(s, CanchaId, id))[other] == multiset(s)[other]
    ensures Removed(Removed(s, CanchaId, id), CanchaId, id) == Removed(s, CanchaId, id)
  {
    RemovedKeepsOthers(s, CanchaId, id, other);
    RemovedIdempotent(s, CanchaId, id);
  }
}
