# DataGridX grid mutation engine, in Dafny

This project models the part of the DataGridX backend (`index.js`) that creates
tables and changes their grids. A user owns tables. A table's `data` field is a
grid: a list of rows, each row a list of `{cellValue}` cells. Five handlers
change the grid: addRow, addColumn, deleteRow, deleteColumn and editCell. Each
one fetches the table, changes the fetched grid in place, and writes the whole
grid back.

Each handler runs the same gates in the same order:

- 401 when the Authorization header is missing, empty, or its token does not verify;
- 403 when the email in the path is not the token's email, decided before the collection is read;
- 404 when no document matches both that email and the id;
- 400 when the operation's index or minimum-shape check refuses;
- otherwise the grid is written back.

Files:

- `option.dfy` (`Opt`): the Option datatype.
- `grid.dfy` (`Grids`): the grid as a value.
  - `WellShaped` is the invariant: rectangular, at least 2 rows, at least 1 column.
  - One function per operation, with its checks in the source's order.
  - `Apply` dispatches one operation; `Replay` applies a sequence of them.
  - Round-trip lemmas pair each operation with its inverse.
- `sheet.dfy` (`Engine`): class `Sheet`, the fetched grid changed in place.
  - One method per operation; the `forEach` loops are `while` loops.
  - Each method is proved to leave `rows` as the matching `Grids` function says.
- `auth.dfy` (`Auth`): the token gate.
  - The token is `authorization.split(" ")[1]`.
  - Signature and expiry checking is a parameter `verify: string -> Option<Email>`.
- `store.dfy` (`Tables`): the tables collection.
  - `Handle` is the whole request as a function: the gates, then the operation.
  - Class `TableStore` holds the documents as a map from id to table.
  - `CreateTable` and `Mutate` are its handlers. `Mutate` is the imperative read-modify-write, proved equal to `Handle`.

Each `TableStore` handler takes the claim that `Auth.Authenticate` produces,
not the raw header. `Tables.UnauthenticatedWhateverTheStore` states the 401
gate over the header itself.

Three facts about `index.js` that the model keeps:

- DeleteRow checks the index before the two-row minimum, so on a 2-row grid an out-of-range index is refused as "Invalid row index", not as "Cannot have less than 2 rows".
- DeleteColumn checks the column index before the one-column minimum, in the same way.
- Creation checks only the token, so the new table's owner is the `email` field of the request body, not the token's email.

## Model

| member | source | states |
|---|---|---|
| Grids.Seed | index.js:93-99 | a new grid is exactly 2×2 and well shaped: row 0 is two "HEADING" cells, row 1 two empty cells |
| Grids.RowAdded | index.js:165-166 | row count grows by one; earlier rows are unchanged; the new row has row 0's length and only empty cells; well-shapedness and width are kept |
| Grids.ColumnAdded | index.js:200 | same row count; each row grows by exactly one empty cell at its end; its earlier cells keep their positions; well-shapedness is kept and width grows by one |
| Grids.Spliced | index.js:291 | `splice(j, 1)` removes the cell at j when the row is long enough, else leaves the row as it was |
| Grids.RowDeleted | index.js:235-245 | "Invalid row index" iff the index is outside [0, rowCount); "less than 2 rows" iff it is in range and rowCount ≤ 2; otherwise exactly that row goes, the rest keep their order, and the invariant holds |
| Grids.ColumnDeleted | index.js:281-291 | "Invalid column index" iff the index is outside [0, width of row 0); "less than 1 column" iff it is in range and the width ≤ 1; otherwise that cell leaves every row long enough to have it, shorter rows stay as they were, and the invariant holds with width one less |
| Grids.CellEdited | index.js:325-334 | "Invalid cell index" iff a coordinate is out of range (the column checked against row 0); otherwise only cell (r, c) becomes the new value, every other cell and every row length stay the same |
| Grids.Apply | index.js:146-346 | AddRow and AddColumn are never refused; every accepted operation keeps the grid well shaped |
| Grids.Replay | index.js:146-346 | any sequence of operations on a well-shaped grid, each refusal leaving the grid unchanged, ends in a well-shaped grid |
| Grids.AddRowThenDeleteIt | index.js:165-245 | deleting the row AddRow appended gives back the original grid |
| Grids.AddColumnThenDeleteIt | index.js:200-291 | deleting the column AddColumn appended gives back the original grid |
| Grids.EditCellThenRestore | index.js:325-334 | an in-range edit is accepted, and writing the old value back restores the grid |
| Grids.SeedScenarios | index.js:93-334 | a new table refuses to delete row 0 (too few rows); after AddRow, deleting row 0 leaves two empty rows; editing row 5 and deleting column 2 are refused as invalid indices |
| Engine.Sheet.AddRow | index.js:165-166 | pushing a blank row as long as row 0 leaves the grid `RowAdded` describes |
| Engine.Sheet.AddColumn | index.js:200 | the per-row push loop leaves the grid `ColumnAdded` describes |
| Engine.Sheet.DeleteRow | index.js:235-245 | gives the refusal `RowDeleted` gives, with the grid unchanged, or splices out the row as it describes |
| Engine.Sheet.DeleteColumn | index.js:281-291 | gives the refusal `ColumnDeleted` gives, with the grid unchanged, or runs the per-row splice loop to its result |
| Engine.Sheet.EditCell | index.js:325-334 | gives the refusal `CellEdited` gives, with the grid unchanged, or assigns the one cell as it describes |
| Engine.Sheet.Perform | index.js:146-346 | runs the requested operation with the effect `Apply` describes |
| Auth.Field | index.js:48 | the text before the first space: a prefix with no space, followed by a space unless it is the whole string |
| Auth.SecondField | index.js:48 | `split(" ")[1]` is absent iff the header has no space; otherwise it is the field after the first space |
| Auth.Authenticate | index.js:44-54 | a missing or empty header, or one without a space, gives no claim; a non-empty header with a second field gets exactly the claim `verify` gives that field, and no other header gets a claim |
| Auth.BearerToken | index.js:48 | for a token without spaces, the second field of `Bearer <token>` is exactly that token |
| Auth.BearerHeader | index.js:44-52 | a request with a `Bearer <token>` header carries exactly the claim the verifier gives that token |
| Tables.NewTable | index.js:93-99 | the inserted document keeps the body's email and other fields, but its grid is the seed, whatever `data` the body had |
| Tables.FindOne | index.js:158-163 | a table is found iff its id exists and its owner email equals the path email |
| Tables.Handle | index.js:146-346 | 401, then 403, then 404, then 400, then success. On every response but success the collection is unchanged. Success changes only that table's grid, to the operation's result. The invariant holds afterwards |
| Tables.HandleStatusCodes | index.js:146-346 | a grid-changing request answers 401, 403, 404, 400 or 200, and the collection changes only on 200 |
| Tables.UnauthenticatedWhateverTheStore | index.js:44-52 | a missing or empty header, or one without a space, gives 401 and no change for every path email, id, operation and collection |
| Tables.ForbiddenWhateverTheStore | index.js:223-233 | a path email different from the token's gives 403 whatever the collection holds |
| Tables.TableStore.CreateTable | index.js:90-106 | no token gives 401 and no change. Otherwise the body's table is inserted with the seed grid under a fresh id, 201 carries that id and the next id moves on by one |
| Tables.TableStore.Mutate | index.js:146-346 | the gates, the fetch, the in-place change and the write-back produce the response and collection `Handle` describes, and keep the store invariant |

## Left out

- Token signing (`/jwt`) and signature/expiry checking are library calls. They enter only as the `verify` parameter.
- A verified token whose payload has no email is not modelled. The grid-changing routes would answer 403 for it. Table creation checks only the token, so it would answer 201.
- Tables.TableBody always carries an email. A creation body without one would be stored with no owner field. The `{email, _id}` query could then never match it, so every later grid change of that table would answer 404.
- The MongoDB connection, Express wiring, CORS, environment configuration, the ping and the listen call are plumbing. They are not modelled.
- `verifyAdmin` is never attached to a route. The isAdmin lookup reads the users collection, which is not modelled. `POST /users` is not modelled either.
- The two GET routes (list a user's tables, fetch one table) are reads outside the grid mutation core. They are not modelled.
- `models.js` holds schema declarations that `index.js` never imports. It is not part of this model.
- Concurrency is not modelled. Each request is one atomic step, so the lost update is not shown. That update is lost when two requests fetch the same grid and both write it back.
- JavaScript coercions are not modelled; indices are integers. A NaN from `parseInt` would pass the bound checks. Missing or non-numeric editCell body fields are also outside the model.
- The 500 paths are not modelled: a malformed ObjectId, a store error, or `data[r][c]` on a short row.
  - Grids.CellEdited and Engine.Sheet.EditCell require a rectangular grid for this reason.
  - The store invariant guarantees a rectangular grid for every stored table.
- Tables.TableStore.CreateTable returns `Created(id)` only. The 201 body echoes the request with `data: []`, and this model does not reproduce that body.
- Store ids are a counter, not ObjectIds. A request body carrying its own `_id` is not modelled.
- Cells are values, so the model has no cell objects that could alias. No handler shares one cell between two positions.
- Tables.Handle covers the five mutation handlers through one operation parameter. Their code is the same apart from the grid operation.
