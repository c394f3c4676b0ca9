# Ticket table of the Jece Soluciones support desk

`app.py` is a Streamlit page over one table of support tickets. Each row has an
ID, a date string (Fecha), a customer (Cliente), a category (Categoría, one of
Mantenimiento, Software, Hardware, Redes, Cámaras), a priority (Prioridad: Baja,
Media, Alta, Urgente), a description, a status (Estado: Abierto or Resuelto), a
solution text (Solución) and a cost (Costo_USD). The page's handlers:

- register a ticket under the next ID (the largest ID plus one, or 1 for an
  empty table) as Abierto, with solution "Pendiente" and cost 0;
- resolve the ticket picked from the list of open tickets. A solution that is
  blank after `strip()` is refused. Otherwise every row with that ID gets
  Estado, Solución and Costo_USD set in place;
- delete the ticket picked from the list of all tickets. This needs the admin
  password and a non-empty table, and keeps every row whose ID differs;
- filter the history table by a case-insensitive substring of any column's
  text;
- colour rows: a resolved row is green whatever its priority, an open urgent
  row is red, and the rest are plain;
- count resolved tickets;
- back-fill the Solución and Costo_USD columns when an older file lacks them.

Option lists show each ticket as `ID <id> - <cliente>`. The handlers recover the
ID by taking the second space-separated token of the chosen option.

The Dafny model has five modules:

- `Wrappers` (wrappers.dfy) holds `Option` and `Result`.
- `Text` (text.dfy) models the Python string operations the handlers use:
  `strip`, `split(" ")`, `str(int)`, `int(str)`, case folding and substring
  search.
- `Seqs` (seqs.dfy) is order-preserving selection, the shape of a pandas
  boolean mask.
- `Tickets` (tickets.dfy) holds the pure table logic. Labels, search, deletion,
  classification, back-fill and the resolved count are functions with lemmas.
  So are the specification functions of the two state changes, `Registered` and
  `SettleAll`.
- `TicketStore` (store.dfy) holds the class `TicketTable`. Its `rows` field is
  loaded by a constructor, grown by `Create` and updated in place by `Resolve`.

Where app.py is looser than a tidy ticket system would be, the model follows
app.py:

- `Resolve` updates every row carrying the chosen ID, whatever its status. Only
  the option list restricts resolution to open tickets
  (`ResolveChoiceNamesOpenTicket`).
- `Create` accepts blank customer and description fields.
- The search looks at every column, including ID, date, category, priority,
  status and cost, not only the free-text ones.
- Classification has no separate tier for Alta.
- The back-fill fills a missing Solución with `""`, while a new ticket gets
  `"Pendiente"`.

## Model

| member | source | states |
|---|---|---|
| Tickets.MaxId | app.py:49 | the result is one of the table's IDs and no ID exceeds it |
| Tickets.NextId | app.py:49 | 1 on an empty table; otherwise above every existing ID and equal to one of them plus one (the maximum plus one); positive when all IDs are |
| Tickets.OpenTicket | app.py:50-54 | the new row carries the given ID and is Abierto, so it shows as urgent exactly when the form's priority is Urgente and is plain otherwise |
| Tickets.Registered | app.py:49-55 | the table grows by one row at the end, the earlier rows are kept as they were, the new ID is above every earlier ID, and the new row is Abierto with Solución "Pendiente" and cost 0 |
| Tickets.RegisteredKeepsIds | app.py:49-55 | the appended ID differs from every existing one, so registering keeps IDs unique and positive |
| Tickets.RegisteredKeepsNumbering | app.py:49-55 | on a table numbered 1..n the next ID is n+1 and the table stays numbered in order |
| Tickets.RegisteredAllNumbersFromOne | app.py:47-58 | any run of registrations on a table numbered 1..n (the empty one included) adds one row each and numbers them consecutively, with no gaps or repeats |
| Tickets.RegisteredKeepsResolvedCount | app.py:53 | a new ticket is open, so the resolved count is unchanged |
| TicketStore.TicketTable.Create | app.py:47-58 | the new table is Registered of the old one, so the numbering lemmas apply to the method: it appends exactly one row at the end with ID NextId, Estado Abierto, Solución "Pendiente", cost 0 and the form's fields unchecked; earlier rows unchanged; uniqueness, positivity and resolved count preserved |
| TicketStore.TicketTable.Resolve | app.py:84-91 | a blank solution is refused and leaves the table as it was; otherwise the table becomes SettleAll of the old one: same length, rows with other IDs unchanged, resolved rows stay resolved, unique IDs stay unique |
| Tickets.SettleAll | app.py:87 | only rows with the selected ID change, and in them only Estado (to Resuelto), Solución (to the text) and the cost; count and order kept |
| Tickets.SettleAllIsOneWay | app.py:87 | IDs are untouched, no resolved row reopens, and uniqueness and positivity of IDs are preserved |
| Tickets.SettleAllResolvedCount | app.py:65 | after a resolve the resolved count grows by exactly the number of open rows carrying the selected ID |
| Tickets.ResolvedCount | app.py:65 | the count is at most the number of rows; what it counts is stated by ResolvedCountIsResolvedRows and ResolvedPlusOpenIsAll |
| Tickets.ResolvedCountIsResolvedRows | app.py:65 | the count equals the number of positions of the table holding a Resuelto row, so repeated rows each count |
| Tickets.ResolvedPlusOpenIsAll | app.py:65-72 | the resolved count plus the number of rows offered for resolution is the number of rows: every row is in exactly one of the two |
| Text.TrimStart | app.py:85 | the removed prefix is all whitespace and what remains is a suffix that does not start with whitespace |
| Text.TrimEnd | app.py:85 | the removed suffix is all whitespace and what remains is a prefix that does not end with whitespace |
| Text.Strip | app.py:85 | `strip()` gives the text found at some position of the input with only whitespace before and after it, and neither starting nor ending with whitespace |
| Text.IsBlank | app.py:85 | `strip() == ""` holds exactly when every character is whitespace |
| Text.BlankIffAllSpace | app.py:85 | `strip()` gives the empty string exactly when every character is whitespace |
| Text.Split | app.py:79 | `split(" ")` gives at least one piece and no piece contains the separator |
| Text.JoinSplit | app.py:79 | joining the pieces of a split with the separator gives back the text |
| Text.SplitAfterWord | app.py:79 | a separator-free word followed by the separator is exactly the first piece, and the rest splits on its own |
| Text.NatToString | app.py:77 | `str(n)` is a non-empty run of digits with no leading zero |
| Text.IntToString | app.py:77 | `str(i)` is non-empty and made of digits and the minus sign, so it holds no space |
| Text.ParseInt | app.py:79 | `int(s)` succeeds exactly on an optional sign followed by at least one digit |
| Text.DigitsValueOfNatToString | app.py:79 | reading back the digits of `str(n)` gives n |
| Text.ParseIntOfIntToString | app.py:79 | `int(str(i)) == i` for every integer |
| Tickets.Label | app.py:77-79 | whatever the customer text holds, the option `ID {id} - {cliente}` parses back to id through `int(option.split(" ")[1])` |
| Tickets.ParseLabelSecondWord | app.py:79 | an option whose first two words hold no space parses exactly as `int()` of its second word, whatever follows |
| Tickets.PlaceholderDoesNotParse | app.py:111 | the placeholder "No hay tickets" does not parse to an ID |
| Tickets.OpenTickets | app.py:72 | the resolve panel's rows are an order-preserving subsequence holding every copy of each open row and no resolved row |
| Tickets.Labels | app.py:77 | one option per row, and option i parses back to the ID of row i (the meaning is Label's round trip) |
| Tickets.ResolveChoices | app.py:72-79 | one option per open ticket, and option k parses back to the ID of the k-th open ticket |
| Tickets.ResolveChoiceNamesOpenTicket | app.py:72-79 | every option of the resolve panel parses to the ID of a ticket of the table that is Abierto |
| Tickets.DeleteChoices | app.py:111 | the delete list is never empty: on an empty table the placeholder, which parses to nothing; otherwise one option per ticket, option k parsing back to row k's ID |
| Seqs.Filter | app.py:119 | a boolean-mask selection is an order-preserving subsequence holding exactly the elements that satisfy the mask |
| Seqs.FilterCounts | app.py:119 | the selection holds every copy of each element that satisfies the mask and no copy of the others |
| Tickets.RemoveId | app.py:119 | the kept rows are an order-preserving subsequence holding exactly the rows whose ID differs |
| Tickets.RemoveIdCounts | app.py:119 | deleting keeps every copy of each row whose ID differs and no copy of a row with the deleted ID |
| Tickets.Delete | app.py:116-123 | a wrong password or an empty table is refused, and only those are; with both right, an option whose second token is not an integer is the only other failure; a success is the table with every row of the parsed ID removed |
| Tickets.DeleteChoiceRemovesId | app.py:111-119 | with the password, picking the option of row k removes exactly the rows with row k's ID |
| Tickets.RemoveIdOfUniqueRow | app.py:119 | with unique IDs, removing row k's ID removes row k alone and keeps the other rows in order |
| Tickets.RemoveIdResolvedCount | app.py:119 | deleting never raises the resolved count |
| Tickets.RemoveIdKeepsUniqueIds | app.py:119 | deleting keeps IDs unique |
| Tickets.CostText | app.py:98 | the text of a cost reads back as the amount: digits giving the whole dollars, a point, then either one digit giving the dimes or two digits giving the cents and ending in a non-zero digit |
| Tickets.CellTexts | app.py:98 | a row has one text per column (nine); the ID column reads back as the ID, and the customer, description and solution columns are the row's own texts |
| Tickets.Matches | app.py:98 | the empty query matches every row, and a query found in the customer, description or solution, ignoring case, matches the row |
| Tickets.Search | app.py:98 | an empty query gives the whole table; otherwise an order-preserving subsequence holding every copy of each row with some column containing the query, ignoring case, and no other row |
| Text.LowerIdempotent | app.py:98 | case folding twice is folding once |
| Text.ContainsIffOccurs | app.py:98 | substring containment holds exactly when the query occurs at some position |
| Text.ContainsTransitive | app.py:98 | a substring of a substring is a substring |
| Tickets.SearchIgnoresQueryCase | app.py:98 | searching for the lower-cased query gives the same rows as the query itself |
| Tickets.SearchFindsId | app.py:98 | searching for a row's ID text finds that row |
| Tickets.SearchNarrows | app.py:98 | a query that contains another query (ignoring case) finds no rows the shorter one misses |
| Tickets.Classify | app.py:24-29 | resolved wins regardless of priority; an open Urgente row is urgent; every other open row is unstyled, each as an if-and-only-if |
| Tickets.RowStyles | app.py:24-29 | one style per column, each equal to the row's class |
| Tickets.SettledRowsShowResolved | app.py:25-26 | after a resolve every selected row shows as resolved, whatever its priority |
| Tickets.Backfill | app.py:14-15 | one row per stored row, each keeping the stored ID, date, customer, category, priority, description and status; a missing Solución column reads as "" and a missing Costo_USD as 0, and a present column is kept cell by cell |
| Tickets.Columns | app.py:21-22 | the layout a table is written in has one cell per row in every column; its meaning is the round trip BackfillColumns |
| Tickets.BackfillColumns | app.py:11-22 | loading a table written with all its columns gives the table back |
| Tickets.BackfillLegacy | app.py:14-15 | a file lacking both columns loads as if it held "" and 0 in every row |
| TicketStore.TicketTable.Load | app.py:11-19 | no file gives the empty table; a file gives its back-filled rows |

## Left out

- Streamlit widgets, layout, `st.session_state`, `st.rerun`, messages and the
  logo are user interface. The model takes the form values, the chosen option,
  the typed solution, the cost and the password as parameters.
- CSV reading and writing and `os.path.exists` are file I/O. `Load` takes the
  parsed file, or None for a missing file.
- The `astype(int)` cast of the ID column (app.py:16) truncates a fractional
  ID and raises on a missing one. The model assumes the cast succeeds:
  `StoredRow.id` is already an `int`. Cells that pandas
  reads back as NaN (an empty customer, say) are not modelled. Neither are
  status, category or priority values outside the enumerations.
- `datetime.now().strftime` is a clock. Fecha is an opaque string passed to
  `Create`.
- Costs are whole US cents (`nat`), not floats. The cost widget (app.py:83)
  accepts any non-negative float. Amounts finer than a cent are not
  modelled. The revenue sum and the `$ {:,.2f}` and `$ {:.2f}`
  formatting are floating point and are not modelled. `CostText` gives the
  search text of a cost in Python's float form ("12.5", "12.05", "0.0").
- CostText: follows Python's text only below 2^46 dollars (about 7.0e13).
  From there on, neighbouring doubles are more than a cent apart, so Python
  prints the nearest double ("…664.02" for 2^46 dollars and one cent). The
  exponent form Python uses from 1e16 up is not modelled either.
- NextId: IDs are unbounded integers. The int64 column of pandas
  (app.py:16) makes `df["ID"].max() + 1` (app.py:49) wrap around when the
  largest ID is 2^63 - 1. That wrap is not modelled, so `Create` always
  produces an ID above every existing one.
- Search: pandas `str.contains` treats the query as a regular expression. The
  model matches it as a literal substring. A query holding regex metacharacters
  ("." or "(", say) can behave differently, or raise an error, in the original.
- Search case folding covers ASCII and the Latin-1 capitals. The rest of
  Unicode's case mappings are not modelled.
- `int()` also accepts surrounding whitespace, underscores between digits and
  non-ASCII digits. `ParseInt` accepts only an optional sign and ASCII digits.
  Options built by `Label` never need more.
- The descending-ID display sort and the CSS colour strings are presentation.
  Classification is the `RowStyle` tag.
- Several sessions writing the file at once can overwrite each other's changes.
  There is no locking to model.
- Delete is a function that returns the new table or a `DeleteError`. The
  handler's reassignment of `df_tickets` and the save are not a method. On a
  failure the caller keeps its table.
