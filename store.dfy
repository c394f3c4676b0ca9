/**
 * The in-memory ticket table the handlers work on: it is loaded from the file,
 * grown by the new-ticket handler and updated in place by the resolve handler.
 */
module TicketStore {
  import opened Wrappers
  import opened Text
  import opened Tickets

  class TicketTable {
    /** The rows, in file order. */
    var rows: seq<Ticket>

    /**
     * `cargar_datos()`: no file gives an empty table; a file is back-filled with the
     * columns it lacks.
     */
    constructor Load(stored: Option<StoredTable>)
      requires stored.Some? ==> Rectangular(stored.value)
      ensures stored.None? ==> rows == []
      ensures stored.Some? ==> rows == Backfill(stored.value)
    {
      rows := if stored.Some? then Backfill(stored.value) else [];
    }

    /**
     * The new-ticket handler: appends one open row under the next ID and returns that ID.
     * The form's fields are taken as they come.
     */
    method Create(fecha: string, form: TicketForm) returns (id: int)
      modifies this
      ensures id == NextId(old(rows))
      ensures forall i :: 0 <= i < |old(rows)| ==> old(rows)[i].id < id
      ensures rows == old(rows) + [OpenTicket(id, fecha, form)]
      ensures rows == Registered(old(rows), fecha, form)
      ensures rows[|rows| - 1].estado == Abierto && rows[|rows| - 1].solucion == "Pendiente"
      ensures rows[|rows| - 1].costo == 0
      ensures UniqueIds(old(rows)) ==> UniqueIds(rows)
      ensures PositiveIds(old(rows)) ==> PositiveIds(rows)
      ensures ResolvedCount(rows) == ResolvedCount(old(rows))
    {
      id := NextId(rows);
      RegisteredKeepsIds(rows, fecha, form);
      RegisteredKeepsResolvedCount(rows, fecha, form);
      rows := rows + [OpenTicket(id, fecha, form)];
    }

    /**
     * The resolve handler for the selected ID: a solution that strips to nothing is
     * refused and the table is left as it was; otherwise every row carrying `id` is
     * marked resolved with the solution and the cost, and no other cell changes.
     */
    method Resolve(id: int, texto: string, costo: Cents) returns (accepted: bool)
      modifies this
      ensures accepted <==> !IsBlank(texto)
      ensures !accepted ==> rows == old(rows)
      ensures accepted ==> rows == SettleAll(old(rows), id, texto, costo)
      ensures |rows| == |old(rows)|
      ensures forall i :: 0 <= i < |rows| && old(rows)[i].id != id ==> rows[i] == old(rows)[i]
      ensures forall i :: 0 <= i < |rows| && old(rows)[i].estado == Resuelto ==> rows[i].estado == Resuelto
      ensures UniqueIds(old(rows)) ==> UniqueIds(rows)
    {
      accepted := !IsBlank(texto);
      if !accepted {
        return;
      }
      var i := 0;
      while i < |rows|
        invariant 0 <= i <= |rows| == |old(rows)|
        invariant forall k :: 0 <= k < i ==> rows[k] == Settle(old(rows)[k], id, texto, costo)
        invariant forall k :: i <= k < |rows| ==> rows[k] == old(rows)[k]
      {
        if rows[i].id == id {
          rows := rows[i := rows[i].(estado := Resuelto, solucion := texto, costo := costo)];
        }
        i := i + 1;
      }
      SettleAllIsOneWay(old(rows), id, texto, costo);
    }
  }
}
