/**
 * The ticket table of the support desk: its rows, the new-ID rule, the resolve
 * update, deletion, search, row classification, the "ID <n> - <cliente>" option
 * labels and the back-fill of columns missing from older files.
 */
module Tickets {
  import opened Wrappers
  import opened Text
  import opened Seqs

  // ---------------------------------------------------------------------------
  // Data model

  datatype Category = Mantenimiento | Software | Hardware | Redes | Camaras
  datatype Priority = Baja | Media | Alta | Urgente
  datatype Status = Abierto | Resuelto

  /** An amount of money in US cents. */
  type Cents = nat

  /** One row of the table, with the columns in file order. */
  datatype Ticket = Ticket(
    id: int,
    fecha: string,
    cliente: string,
    categoria: Category,
    prioridad: Priority,
    descripcion: string,
    estado: Status,
    solucion: string,
    costo: Cents)

  /** ID, Fecha, Cliente, Categoría, Prioridad, Descripción, Estado, Solución, Costo_USD. */
  const ColumnCount := 9

  function CategoryName(c: Category): string {
    match c
    case Mantenimiento => "Mantenimiento"
    case Software => "Software"
    case Hardware => "Hardware"
    case Redes => "Redes"
    case Camaras => "Cámaras"
  }

  function PriorityName(p: Priority): string {
    match p
    case Baja => "Baja"
    case Media => "Media"
    case Alta => "Alta"
    case Urgente => "Urgente"
  }

  function StatusName(s: Status): string {
    match s
    case Abierto => "Abierto"
    case Resuelto => "Resuelto"
  }

  /** No two rows share an ID. */
  predicate UniqueIds(rows: seq<Ticket>) {
    forall i, j :: 0 <= i < j < |rows| ==> rows[i].id != rows[j].id
  }

  /** Every ID is positive. */
  predicate PositiveIds(rows: seq<Ticket>) {
    forall i :: 0 <= i < |rows| ==> rows[i].id > 0
  }

  /** The rows are numbered 1, 2, 3, ... in order, as a table built only by Create is. */
  predicate NumberedInOrder(rows: seq<Ticket>) {
    forall i :: 0 <= i < |rows| ==> rows[i].id == i + 1
  }

  // ---------------------------------------------------------------------------
  // Create

  /** The largest ID in a non-empty table (`df["ID"].max()`). */
  function MaxId(rows: seq<Ticket>): (m: int)
    requires rows != []
    ensures forall i :: 0 <= i < |rows| ==> rows[i].id <= m
    ensures exists i :: 0 <= i < |rows| && rows[i].id == m
  {
    if |rows| == 1 then rows[0].id
    else
      var rest := MaxId(rows[1..]);
      assert exists i :: 1 <= i < |rows| && rows[i].id == rest by {
        var k :| 0 <= k < |rows[1..]| && rows[1..][k].id == rest;
        assert rows[k + 1].id == rest;
      }
      if rows[0].id >= rest then rows[0].id else rest
  }

  /**
   * The ID the new-ticket handler assigns: 1 for an empty table, otherwise the
   * least integer above every existing ID.
   */
  function NextId(rows: seq<Ticket>): (r: int)
    ensures rows == [] ==> r == 1
    ensures forall i :: 0 <= i < |rows| ==> rows[i].id < r
    ensures rows != [] ==> exists i :: 0 <= i < |rows| && rows[i].id == r - 1
    ensures PositiveIds(rows) ==> r > 0
  {
    if rows == [] then 1 else MaxId(rows) + 1
  }

  /** The fields the new-ticket form collects; blank ones are accepted as they are. */
  datatype TicketForm = TicketForm(cliente: string, categoria: Category, prioridad: Priority, descripcion: string)

  /** The row the new-ticket handler appends: open, solution "Pendiente", cost 0. */
  function OpenTicket(id: int, fecha: string, form: TicketForm): (t: Ticket)
    ensures t.id == id && t.estado == Abierto
    ensures Classify(t) == (if form.prioridad == Urgente then UrgentStyle else NoStyle)
  {
    Ticket(id, fecha, form.cliente, form.categoria, form.prioridad, form.descripcion, Abierto, "Pendiente", 0)
  }

  /** The table after one registration: the new row goes at the end under NextId. */
  function Registered(rows: seq<Ticket>, fecha: string, form: TicketForm): (r: seq<Ticket>)
    ensures |r| == |rows| + 1 && r[..|rows|] == rows
    ensures forall i :: 0 <= i < |rows| ==> rows[i].id < r[|rows|].id
    ensures r[|rows|].estado == Abierto && r[|rows|].solucion == "Pendiente" && r[|rows|].costo == 0
  {
    rows + [OpenTicket(NextId(rows), fecha, form)]
  }

  /** Registration keeps IDs unique and positive: the new ID is fresh. */
  lemma RegisteredKeepsIds(rows: seq<Ticket>, fecha: string, form: TicketForm)
    ensures var r := Registered(rows, fecha, form);
      (UniqueIds(rows) ==> UniqueIds(r)) && (PositiveIds(rows) ==> PositiveIds(r))
    ensures forall i :: 0 <= i < |rows| ==> rows[i].id != NextId(rows)
  {
  }

  /** Registering on a table numbered 1..n appends ticket n + 1. */
  lemma {:induction false} RegisteredKeepsNumbering(rows: seq<Ticket>, fecha: string, form: TicketForm)
    requires NumberedInOrder(rows)
    ensures NextId(rows) == |rows| + 1
    ensures NumberedInOrder(Registered(rows, fecha, form))
  {
    if rows != [] {
      var r := NextId(rows);
      var k :| 0 <= k < |rows| && rows[k].id == r - 1;
      assert rows[|rows| - 1].id == |rows|;
    }
  }

  /** A run of registrations, each with its own time stamp and form. */
  function RegisteredAll(rows: seq<Ticket>, submissions: seq<(string, TicketForm)>): (r: seq<Ticket>)
    decreases |submissions|
  {
    if submissions == [] then rows
    else RegisteredAll(Registered(rows, submissions[0].0, submissions[0].1), submissions[1..])
  }

  /** Registrations on an empty table number the tickets 1..N with no gaps or repeats. */
  lemma {:induction false} RegisteredAllNumbersFromOne(rows: seq<Ticket>, submissions: seq<(string, TicketForm)>)
    requires NumberedInOrder(rows)
    ensures |RegisteredAll(rows, submissions)| == |rows| + |submissions|
    ensures NumberedInOrder(RegisteredAll(rows, submissions))
    decreases |submissions|
  {
    if submissions != [] {
      var next := Registered(rows, submissions[0].0, submissions[0].1);
      RegisteredKeepsNumbering(rows, submissions[0].0, submissions[0].1);
      RegisteredAllNumbersFromOne(next, submissions[1..]);
    }
  }

  // ---------------------------------------------------------------------------
  // Resolve

  /** One row after the resolve assignment for `id`: only a row with that ID changes. */
  function Settle(t: Ticket, id: int, texto: string, costo: Cents): Ticket {
    if t.id == id then t.(estado := Resuelto, solucion := texto, costo := costo) else t
  }

  /**
   * The table after `df.loc[df["ID"] == id, [Estado, Solución, Costo_USD]] = [Resuelto, texto, costo]`:
   * only the rows carrying `id` change, and in them only the status, the solution and
   * the cost; row count and order stay as they were.
   */
  function SettleAll(rows: seq<Ticket>, id: int, texto: string, costo: Cents): (r: seq<Ticket>)
    ensures |r| == |rows|
    ensures forall i :: 0 <= i < |rows| && rows[i].id != id ==> r[i] == rows[i]
    ensures forall i :: 0 <= i < |rows| && rows[i].id == id ==>
      r[i].estado == Resuelto && r[i].solucion == texto && r[i].costo == costo
      && r[i] == rows[i].(estado := Resuelto, solucion := texto, costo := costo)
  {
    seq(|rows|, i requires 0 <= i < |rows| => Settle(rows[i], id, texto, costo))
  }

  /** Resolution is one-way: nothing that was resolved reopens, and IDs are untouched. */
  lemma SettleAllIsOneWay(rows: seq<Ticket>, id: int, texto: string, costo: Cents)
    ensures var r := SettleAll(rows, id, texto, costo);
      (forall i :: 0 <= i < |rows| ==> r[i].id == rows[i].id)
      && (forall i :: 0 <= i < |rows| && rows[i].estado == Resuelto ==> r[i].estado == Resuelto)
      && (UniqueIds(rows) ==> UniqueIds(r))
      && (PositiveIds(rows) ==> PositiveIds(r))
  {
  }

  // ---------------------------------------------------------------------------
  // Resolved count

  function IsResolved(t: Ticket): bool {
    t.estado == Resuelto
  }

  function IsOpen(t: Ticket): bool {
    t.estado != Resuelto
  }

  /** An open row carrying `id`: the rows a resolve of `id` newly closes. */
  function OpenWithId(id: int): Ticket -> bool {
    (t: Ticket) => t.estado != Resuelto && t.id == id
  }

  /** `len(df[df["Estado"] == "Resuelto"])`. */
  function ResolvedCount(rows: seq<Ticket>): (n: nat)
    ensures n <= |rows|
  {
    |Filter(rows, IsResolved)|
  }

  /** The count is the number of positions in the table holding a Resuelto row. */
  lemma {:induction false} ResolvedCountIsResolvedRows(rows: seq<Ticket>)
    ensures ResolvedCount(rows) == |ResolvedPositions(rows)|
  {
    if rows != [] {
      var n := |rows| - 1;
      var prefix := rows[..n];
      ResolvedCountIsResolvedRows(prefix);
      assert ResolvedCount(rows) == ResolvedCount(prefix) + |Filter([rows[n]], IsResolved)| by {
        assert rows == prefix + [rows[n]];
        FilterAppend(prefix, [rows[n]], IsResolved);
      }
      assert ResolvedPositions(rows) == ResolvedPositions(prefix) + (if rows[n].estado == Resuelto then {n} else {});
    }
  }

  /** The positions of the Resuelto rows. */
  function ResolvedPositions(rows: seq<Ticket>): set<nat> {
    set i: nat | i < |rows| && rows[i].estado == Resuelto
  }

  /** Every row is either resolved or offered for resolution: the two counts add up to the table. */
  lemma {:induction false} ResolvedPlusOpenIsAll(rows: seq<Ticket>)
    ensures ResolvedCount(rows) + |OpenTickets(rows)| == |rows|
  {
    if rows != [] {
      assert rows == [rows[0]] + rows[1..];
      FilterAppend([rows[0]], rows[1..], IsResolved);
      FilterAppend([rows[0]], rows[1..], IsOpen);
      ResolvedPlusOpenIsAll(rows[1..]);
    }
  }

  /** A new ticket is open, so registering leaves the resolved count as it was. */
  lemma RegisteredKeepsResolvedCount(rows: seq<Ticket>, fecha: string, form: TicketForm)
    ensures ResolvedCount(Registered(rows, fecha, form)) == ResolvedCount(rows)
  {
    FilterAppend(rows, [OpenTicket(NextId(rows), fecha, form)], IsResolved);
  }

  /** Resolving `id` adds to the resolved count exactly the open rows that carry `id`. */
  lemma {:induction false} SettleAllResolvedCount(rows: seq<Ticket>, id: int, texto: string, costo: Cents)
    ensures ResolvedCount(SettleAll(rows, id, texto, costo))
         == ResolvedCount(rows) + |Filter(rows, OpenWithId(id))|
  {
    if rows != [] {
      var r := SettleAll(rows, id, texto, costo);
      assert r == [Settle(rows[0], id, texto, costo)] + SettleAll(rows[1..], id, texto, costo);
      assert rows == [rows[0]] + rows[1..];
      FilterAppend([Settle(rows[0], id, texto, costo)], SettleAll(rows[1..], id, texto, costo), IsResolved);
      FilterAppend([rows[0]], rows[1..], IsResolved);
      FilterAppend([rows[0]], rows[1..], OpenWithId(id));
      SettleAllResolvedCount(rows[1..], id, texto, costo);
    }
  }

  // ---------------------------------------------------------------------------
  // Option labels

  /**
   * The text of a selection option, `f"ID {id} - {cliente}"`. Whatever the customer
   * text holds, the second space-separated token reads back as the ID.
   */
  function Label(id: int, cliente: string): (r: string)
    ensures ParseLabel(r) == Some(id)
  {
    var digits := IntToString(id);
    ParseLabelSecondWord("ID", digits, "- " + cliente);
    ParseIntOfIntToString(id);
    assert "ID " + digits + " - " + cliente == "ID" + [' '] + digits + [' '] + ("- " + cliente);
    "ID " + digits + " - " + cliente
  }

  /** `int(option.split(" ")[1])`: None where Python raises IndexError (one piece) or ValueError. */
  function ParseLabel(option: string): (r: Option<int>)
    ensures |Split(option, ' ')| < 2 ==> r == None
    ensures |Split(option, ' ')| >= 2 ==> r == ParseInt(Split(option, ' ')[1])
  {
    var tokens := Split(option, ' ');
    if |tokens| < 2 then None else ParseInt(tokens[1])
  }

  /**
   * An option made of a space-free first word, a space, a space-free second word, a space
   * and anything at all parses exactly as `int()` of the second word.
   */
  lemma ParseLabelSecondWord(first: string, second: string, rest: string)
    requires ' ' !in first && ' ' !in second
    ensures ParseLabel(first + [' '] + second + [' '] + rest) == ParseInt(second)
  {
    assert first + [' '] + second + [' '] + rest == first + [' '] + (second + [' '] + rest);
    SplitAfterWord(first, ' ', second + [' '] + rest);
    SplitAfterWord(second, ' ', rest);
  }

  /** The placeholder shown on an empty delete list does not parse as an option. */
  lemma PlaceholderDoesNotParse()
    ensures ParseLabel("No hay tickets") == None
  {
    assert "No hay tickets" == "No" + [' '] + ("hay" + [' '] + "tickets");
    SplitAfterWord("No", ' ', "hay" + [' '] + "tickets");
    SplitAfterWord("hay", ' ', "tickets");
    assert !IsDigit('h');
  }

  /** The rows the resolve panel offers: those not yet resolved. */
  function OpenTickets(rows: seq<Ticket>): (r: seq<Ticket>)
    ensures IsSubsequence(r, rows)
    ensures forall t :: multiset(r)[t] == if t.estado == Abierto then multiset(rows)[t] else 0
  {
    FilterCounts(rows, IsOpen);
    Filter(rows, IsOpen)
  }

  /** The labels of a list of rows, in order. */
  function Labels(rows: seq<Ticket>): (r: seq<string>)
    ensures |r| == |rows|
    ensures forall i :: 0 <= i < |rows| ==> ParseLabel(r[i]) == Some(rows[i].id)
  {
    seq(|rows|, i requires 0 <= i < |rows| => Label(rows[i].id, rows[i].cliente))
  }

  /** The options of the resolve panel (one per open ticket). */
  function ResolveChoices(rows: seq<Ticket>): (r: seq<string>)
    ensures |r| == |OpenTickets(rows)|
    ensures forall k :: 0 <= k < |r| ==> ParseLabel(r[k]) == Some(OpenTickets(rows)[k].id)
  {
    Labels(OpenTickets(rows))
  }

  /** Every option of the resolve panel parses back to the ID of an open ticket of the table. */
  lemma ResolveChoiceNamesOpenTicket(rows: seq<Ticket>, k: nat)
    requires k < |ResolveChoices(rows)|
    ensures exists t :: t in rows && t.estado == Abierto && ParseLabel(ResolveChoices(rows)[k]) == Some(t.id)
  {
    var t := OpenTickets(rows)[k];
    assert t in OpenTickets(rows);
  }

  /** The options of the delete panel: every ticket, or one placeholder on an empty table. */
  function DeleteChoices(rows: seq<Ticket>): (r: seq<string>)
    ensures rows == [] ==> r == ["No hay tickets"] && ParseLabel(r[0]) == None
    ensures rows != [] ==> |r| == |rows| && forall k :: 0 <= k < |r| ==> ParseLabel(r[k]) == Some(rows[k].id)
  {
    PlaceholderDoesNotParse();
    if rows == [] then ["No hay tickets"] else Labels(rows)
  }

  // ---------------------------------------------------------------------------
  // Delete

  const AdminPassword := "admin123"

  /** Why a delete did not happen. */
  datatype DeleteError =
    | Refused       // wrong password or empty table: "Error en clave o datos."
    | BadSelection  // an option whose second token is not an integer

  function IdDiffers(id: int): (p: Ticket -> bool)
    ensures forall t :: p(t) == (t.id != id)
  {
    (t: Ticket) => t.id != id
  }

  /** `df[df["ID"] != id]`. */
  function RemoveId(rows: seq<Ticket>, id: int): (r: seq<Ticket>)
    ensures IsSubsequence(r, rows)
    ensures forall t :: t in r <==> t in rows && t.id != id
  {
    Filter(rows, IdDiffers(id))
  }

  /** Deleting keeps every copy of a row whose ID differs and no copy of the others. */
  lemma RemoveIdCounts(rows: seq<Ticket>, id: int)
    ensures forall t :: multiset(RemoveId(rows, id))[t] == if t.id != id then multiset(rows)[t] else 0
  {
    FilterCounts(rows, IdDiffers(id));
  }

  /** The delete handler: password and non-empty table first, then the selected ID is parsed. */
  function Delete(rows: seq<Ticket>, clave: string, seleccion: string): (r: Result<seq<Ticket>, DeleteError>)
    ensures clave != AdminPassword || rows == [] <==> r == Failure(Refused)
    ensures r == Failure(BadSelection) <==> clave == AdminPassword && rows != [] && ParseLabel(seleccion) == None
    ensures r.Success? ==> ParseLabel(seleccion).Some? && r.value == RemoveId(rows, ParseLabel(seleccion).value)
    ensures r.Success? ==> IsSubsequence(r.value, rows) && |r.value| <= |rows|
  {
    if clave == AdminPassword && rows != [] then
      match ParseLabel(seleccion)
      case None => Failure(BadSelection)
      case Some(id) => Success(RemoveId(rows, id))
    else Failure(Refused)
  }

  /** With the right password, choosing the option of row `k` deletes every row with that row's ID. */
  lemma DeleteChoiceRemovesId(rows: seq<Ticket>, k: nat)
    requires k < |rows|
    ensures Delete(rows, AdminPassword, DeleteChoices(rows)[k]) == Success(RemoveId(rows, rows[k].id))
  {
  }

  /** With unique IDs, removing the ID of row `k` removes exactly row `k` and keeps the rest in order. */
  lemma RemoveIdOfUniqueRow(rows: seq<Ticket>, k: nat)
    requires k < |rows| && UniqueIds(rows)
    ensures RemoveId(rows, rows[k].id) == rows[..k] + rows[k + 1..]
  {
    var p := IdDiffers(rows[k].id);
    assert rows == rows[..k] + ([rows[k]] + rows[k + 1..]);
    FilterAppend(rows[..k], [rows[k]] + rows[k + 1..], p);
    FilterAppend([rows[k]], rows[k + 1..], p);
    assert Filter([rows[k]], p) == [];
    FilterKeepsAll(rows[..k], p);
    FilterKeepsAll(rows[k + 1..], p);
  }

  /** Deleting never raises the resolved count. */
  lemma {:induction false} RemoveIdResolvedCount(rows: seq<Ticket>, id: int)
    ensures ResolvedCount(RemoveId(rows, id)) <= ResolvedCount(rows)
  {
    if rows != [] {
      RemoveIdResolvedCount(rows[1..], id);
      assert rows == [rows[0]] + rows[1..];
      FilterAppend([rows[0]], rows[1..], IdDiffers(id));
      var kept := Filter([rows[0]], IdDiffers(id));
      FilterAppend(kept, RemoveId(rows[1..], id), IsResolved);
      FilterAppend([rows[0]], rows[1..], IsResolved);
    }
  }

  /** Deleting keeps IDs unique. */
  lemma {:induction false} RemoveIdKeepsUniqueIds(rows: seq<Ticket>, id: int)
    requires UniqueIds(rows)
    ensures UniqueIds(RemoveId(rows, id))
  {
    if rows != [] {
      RemoveIdKeepsUniqueIds(rows[1..], id);
      var r' := RemoveId(rows[1..], id);
      assert rows == [rows[0]] + rows[1..];
      FilterAppend([rows[0]], rows[1..], IdDiffers(id));
      if rows[0].id != id {
        assert RemoveId(rows, id) == [rows[0]] + r';
        forall j | 0 <= j < |r'| ensures r'[j].id != rows[0].id {
          assert r'[j] in rows[1..];
        }
      }
    }
  }

  // ---------------------------------------------------------------------------
  // Search

  /**
   * Python's str() of a cost held as a float of dollars: "0.0", "12.5", "12.05". The
   * text reads back as the amount: whole dollars, a point, then one digit for a whole
   * number of dimes or two digits ending in a non-zero digit.
   */
  function CostText(c: Cents): (r: string)
    ensures var n := |NatToString(c / 100)|;
      n + 2 <= |r| <= n + 3 && AllDigits(r[..n]) && DigitsValue(r[..n]) == c / 100
      && r[n] == '.' && AllDigits(r[n + 1..])
      && (if |r| == n + 2 then 10 * DigitsValue(r[n + 1..]) else DigitsValue(r[n + 1..])) == c % 100
      && (|r| == n + 3 ==> r[n + 2] != '0')
  {
    var whole := NatToString(c / 100);
    var cents := c % 100;
    var fraction := if cents % 10 == 0 then [DigitChar(cents / 10)] else [DigitChar(cents / 10), DigitChar(cents % 10)];
    DigitsValueOfNatToString(c / 100);
    assert [DigitChar(cents / 10)][..0] == [];
    assert DigitsValue([DigitChar(cents / 10)]) == cents / 10;
    assert |fraction| == 2 ==> fraction[..1] == [DigitChar(cents / 10)];
    assert |fraction| == 2 ==> DigitsValue(fraction) == 10 * (cents / 10) + cents % 10;
    var r := whole + "." + fraction;
    assert r[..|whole|] == whole && r[|whole| + 1..] == fraction;
    r
  }

  /** `row.astype(str)`: the text of each column, in column order. */
  function CellTexts(t: Ticket): (r: seq<string>)
    ensures |r| == ColumnCount
    ensures ParseInt(r[0]) == Some(t.id)
    ensures r[2] == t.cliente && r[5] == t.descripcion && r[7] == t.solucion
  {
    ParseIntOfIntToString(t.id);
    [IntToString(t.id), t.fecha, t.cliente, CategoryName(t.categoria), PriorityName(t.prioridad),
     t.descripcion, StatusName(t.estado), t.solucion, CostText(t.costo)]
  }

  /** Some column of `t` contains `q`, ignoring case. */
  predicate Matches(t: Ticket, q: string)
    ensures q == "" ==> Matches(t, q)
    ensures (|| ContainsIgnoringCase(t.cliente, q)
             || ContainsIgnoringCase(t.descripcion, q)
             || ContainsIgnoringCase(t.solucion, q)) ==> Matches(t, q)
  {
    assert Lower(q) == [] ==> Lower(q) <= Lower(CellTexts(t)[0]);
    exists i :: 0 <= i < ColumnCount && ContainsIgnoringCase(CellTexts(t)[i], q)
  }

  function MatchesQuery(q: string): (p: Ticket -> bool)
    ensures forall t :: p(t) == Matches(t, q)
  {
    (t: Ticket) => Matches(t, q)
  }

  /**
   * The history filter: an empty query keeps everything; otherwise the rows with a
   * column containing the query ignoring case, in table order.
   */
  function Search(rows: seq<Ticket>, q: string): (r: seq<Ticket>)
    ensures q == "" ==> r == rows
    ensures IsSubsequence(r, rows)
    ensures q != "" ==> forall t :: t in r <==> t in rows && Matches(t, q)
    ensures q != "" ==> forall t :: multiset(r)[t] == if Matches(t, q) then multiset(rows)[t] else 0
  {
    IsSubsequenceReflexive(rows);
    FilterCounts(rows, MatchesQuery(q));
    if q == "" then rows else Filter(rows, MatchesQuery(q))
  }

  /** The case of the query does not matter. */
  lemma SearchIgnoresQueryCase(rows: seq<Ticket>, q: string)
    ensures Search(rows, Lower(q)) == Search(rows, q)
  {
    LowerIdempotent(q);
    if q != "" {
      FilterCongruent(rows, MatchesQuery(Lower(q)), MatchesQuery(q));
    }
  }

  /** Every non-empty query matches a row's own ID, so searching for it finds the row. */
  lemma SearchFindsId(rows: seq<Ticket>, k: nat)
    requires k < |rows|
    ensures rows[k] in Search(rows, IntToString(rows[k].id))
  {
    var s := IntToString(rows[k].id);
    assert Lower(s) <= Lower(s);
    assert ContainsIgnoringCase(CellTexts(rows[k])[0], s);
  }

  /** Typing more narrows the search: a query containing another finds no more rows. */
  lemma SearchNarrows(rows: seq<Ticket>, q: string, longer: string)
    requires ContainsIgnoringCase(longer, q)
    ensures forall t :: t in Search(rows, longer) ==> t in Search(rows, q)
  {
    forall t | t in Search(rows, longer) ensures t in Search(rows, q) {
      if q != "" {
        assert longer != "";
        var i :| 0 <= i < ColumnCount && ContainsIgnoringCase(CellTexts(t)[i], longer);
        ContainsTransitive(Lower(CellTexts(t)[i]), Lower(longer), Lower(q));
        assert Matches(t, q);
      }
    }
  }

  // ---------------------------------------------------------------------------
  // Row classification

  /** The colouring `style_tickets` gives a row. */
  datatype RowStyle = ResolvedStyle | UrgentStyle | NoStyle

  /** Resolved wins over every priority; an open urgent ticket is highlighted; the rest are plain. */
  function Classify(t: Ticket): (s: RowStyle)
    ensures s == ResolvedStyle <==> t.estado == Resuelto
    ensures s == UrgentStyle <==> t.estado == Abierto && t.prioridad == Urgente
    ensures s == NoStyle <==> t.estado == Abierto && t.prioridad != Urgente
  {
    match t.estado
    case Resuelto => ResolvedStyle
    case Abierto => if t.prioridad == Urgente then UrgentStyle else NoStyle
  }

  /** `style_tickets(row)`: one style per column, all the row's class. */
  function RowStyles(t: Ticket): (r: seq<RowStyle>)
    ensures |r| == |CellTexts(t)|
    ensures forall i :: 0 <= i < |r| ==> r[i] == Classify(t)
  {
    seq(ColumnCount, _ => Classify(t))
  }

  /** After a resolve, every selected row shows as resolved, whatever its priority. */
  lemma SettledRowsShowResolved(rows: seq<Ticket>, id: int, texto: string, costo: Cents)
    ensures forall i :: 0 <= i < |rows| && rows[i].id == id ==>
      Classify(SettleAll(rows, id, texto, costo)[i]) == ResolvedStyle
  {
  }

  // ---------------------------------------------------------------------------
  // Loading: back-fill of missing columns

  /** A row as stored by files older than the Solución and Costo_USD columns. */
  datatype StoredRow = StoredRow(
    id: int,
    fecha: string,
    cliente: string,
    categoria: Category,
    prioridad: Priority,
    descripcion: string,
    estado: Status)

  /** A file read column-wise: the two later columns may be absent. */
  datatype StoredTable = StoredTable(
    rows: seq<StoredRow>,
    solucion: Option<seq<string>>,
    costo: Option<seq<Cents>>)

  /** Every present column has one cell per row. */
  predicate Rectangular(t: StoredTable) {
    (t.solucion.Some? ==> |t.solucion.value| == |t.rows|)
    && (t.costo.Some? ==> |t.costo.value| == |t.rows|)
  }

  /** The table with a missing Solución column filled with "" and a missing Costo_USD with 0. */
  function Backfill(t: StoredTable): (r: seq<Ticket>)
    requires Rectangular(t)
    ensures |r| == |t.rows|
    ensures forall i :: 0 <= i < |r| ==>
      StoredRow(r[i].id, r[i].fecha, r[i].cliente, r[i].categoria, r[i].prioridad, r[i].descripcion, r[i].estado)
      == t.rows[i]
    ensures forall i :: 0 <= i < |r| ==>
      r[i].solucion == (if t.solucion.Some? then t.solucion.value[i] else "")
      && r[i].costo == (if t.costo.Some? then t.costo.value[i] else 0)
  {
    seq(|t.rows|, i requires 0 <= i < |t.rows| =>
      var s := t.rows[i];
      Ticket(s.id, s.fecha, s.cliente, s.categoria, s.prioridad, s.descripcion, s.estado,
             if t.solucion.Some? then t.solucion.value[i] else "",
             if t.costo.Some? then t.costo.value[i] else 0))
  }

  /** The column layout a table is written in, with every column present. */
  function Columns(rows: seq<Ticket>): (t: StoredTable)
    ensures Rectangular(t) && |t.rows| == |rows|
  {
    StoredTable(
      seq(|rows|, i requires 0 <= i < |rows| =>
        StoredRow(rows[i].id, rows[i].fecha, rows[i].cliente, rows[i].categoria,
                  rows[i].prioridad, rows[i].descripcion, rows[i].estado)),
      Some(seq(|rows|, i requires 0 <= i < |rows| => rows[i].solucion)),
      Some(seq(|rows|, i requires 0 <= i < |rows| => rows[i].costo)))
  }

  /** Back-filling a complete table changes nothing: writing a table and loading it gives it back. */
  lemma BackfillColumns(rows: seq<Ticket>)
    ensures Backfill(Columns(rows)) == rows
  {
  }

  /** A file from before both columns loads with every solution "" and every cost 0. */
  lemma BackfillLegacy(t: StoredTable)
    requires t.solucion.None? && t.costo.None?
    ensures forall i :: 0 <= i < |Backfill(t)| ==> Backfill(t)[i].solucion == "" && Backfill(t)[i].costo == 0
    ensures Backfill(t) == Backfill(StoredTable(t.rows, Some(seq(|t.rows|, _ => "")), Some(seq(|t.rows|, _ => 0))))
  {
  }
}
