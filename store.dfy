/**
 The tables collection and the table-scoped handlers that read and write it.

 A table document is found by the query `{email, _id}`: its id must exist and
 its owner email must equal the path email. Every grid-changing handler runs
 the same gates in the same order: 401 without a valid token, 403 when the path
 email is not the token's email (decided before the collection is read), 404
 when no document matches the query, 400 when the grid operation refuses; only
 then is the whole changed grid written back.
 */
module Tables {
  import opened Opt
  import opened Grids
  import opened Engine
  import opened Auth

  /** A store-assigned document id (an ObjectId in the collection). */
  type TableId = nat

  /** A stored table: its owner's email, the other fields the creator sent, and its grid. */
  datatype Table = Table(email: Email, meta: map<string, string>, data: Grid)

  /** The body of a creation request; `data` is what the caller sent and is never stored. */
  datatype TableBody = TableBody(email: Email, meta: map<string, string>, data: Grid)

  datatype Response =
    | Unauthorized
    | Forbidden
    | NotFound
    | BadRequest(message: string)
    | Acknowledged
    | Created(id: TableId)

  function StatusCode(r: Response): int {
    match r
    case Unauthorized => 401
    case Forbidden => 403
    case NotFound => 404
    case BadRequest(_) => 400
    case Acknowledged => 200
    case Created(_) => 201
  }

  /** Every stored grid keeps the grid invariant. */
  predicate AllWellShaped(tables: map<TableId, Table>) {
    forall id :: id in tables ==> WellShaped(tables[id].data)
  }

  /** The document `{...body, data: seed}` that creation inserts: the seed overrides the body's `data`. */
  function NewTable(body: TableBody): (t: Table)
    ensures t.email == body.email && t.meta == body.meta
    ensures t.data == Seed() && WellShaped(t.data)
  {
    Table(body.email, body.meta, Seed())
  }

  /** `findOne({email, _id: id})` */
  function FindOne(tables: map<TableId, Table>, email: Email, id: TableId): (t: Option<Table>)
    ensures t.Some? <==> id in tables && tables[id].email == email
    ensures t.Some? ==> t.value == tables[id]
  {
    if id in tables && tables[id].email == email then Some(tables[id]) else None
  }

  /**
   One grid-changing request against the collection: the response and the
   collection afterwards.
   */
  function Handle(tables: map<TableId, Table>, claim: Option<Email>, email: Email, id: TableId, op: Op)
    : (r: (Response, map<TableId, Table>))
    requires AllWellShaped(tables)
    ensures AllWellShaped(r.1)
    ensures claim == None ==> r == (Unauthorized, tables)
    ensures claim.Some? && claim.value != email ==> r == (Forbidden, tables)
    ensures claim == Some(email) && (id !in tables || tables[id].email != email) ==> r == (NotFound, tables)
    ensures r.0 != Acknowledged ==> r.1 == tables
    ensures r.0.BadRequest? <==>
      claim == Some(email) && id in tables && tables[id].email == email && Apply(tables[id].data, op).Rejected?
    ensures r.0.BadRequest? ==> r.0.message == Message(Apply(tables[id].data, op).failure)
    ensures r.0 == Acknowledged <==>
      claim == Some(email) && id in tables && tables[id].email == email && Apply(tables[id].data, op).Applied?
    ensures r.0 == Acknowledged ==> r.1 == tables[id := tables[id].(data := Apply(tables[id].data, op).grid)]
  {
    if claim == None then (Unauthorized, tables)
    else if claim.value != email then (Forbidden, tables)
    else match FindOne(tables, email, id)
      case None => (NotFound, tables)
      case Some(t) =>
        match Apply(t.data, op)
        case Rejected(f) => (BadRequest(Message(f)), tables)
        case Applied(g) => (Acknowledged, tables[id := t.(data := g)])
  }

  /** The 401 is decided on the header alone, before the path email or the collection matter. */
  lemma UnauthenticatedWhateverTheStore(tables: map<TableId, Table>, header: Option<string>, verify: string -> Option<Email>, email: Email, id: TableId, op: Op)
    requires AllWellShaped(tables)
    requires header == None || header == Some("") || ' ' !in header.value
    ensures Handle(tables, Authenticate(header, verify), email, id, op) == (Unauthorized, tables)
  {
  }

  /** The 403 does not depend on the collection: it is the same whether or not the table exists. */
  lemma ForbiddenWhateverTheStore(t1: map<TableId, Table>, t2: map<TableId, Table>, who: Email, email: Email, id: TableId, op: Op)
    requires AllWellShaped(t1) && AllWellShaped(t2)
    requires who != email
    ensures Handle(t1, Some(who), email, id, op).0 == Handle(t2, Some(who), email, id, op).0 == Forbidden
  {
  }

  /**
   In HTTP terms: a grid-changing request answers 401, 403, 404, 400 or 200, and
   the collection changes only when it answers 200.
   */
  lemma HandleStatusCodes(tables: map<TableId, Table>, claim: Option<Email>, email: Email, id: TableId, op: Op)
    requires AllWellShaped(tables)
    ensures StatusCode(Handle(tables, claim, email, id, op).0) in {401, 403, 404, 400, 200}
    ensures StatusCode(Handle(tables, claim, email, id, op).0) != 200 ==> Handle(tables, claim, email, id, op).1 == tables
  {
  }

  /**
   The collection's state: the documents by id and the next id to hand out.
   Every id in use is below `nextId`, and every stored grid is well shaped.
   */
  class TableStore {
    var tables: map<TableId, Table>
    var nextId: TableId

    ghost predicate Valid()
      reads this
    {
      AllWellShaped(tables) && forall id :: id in tables ==> id < nextId
    }

    constructor ()
      ensures Valid() && tables == map[]
    {
      tables := map[];
      nextId := 0;
    }

    /** POST /users/tables: only the token is checked; the owner email is the body's. */
    method CreateTable(claim: Option<Email>, body: TableBody) returns (resp: Response)
      requires Valid()
      modifies this
      ensures Valid()
      ensures claim == None ==> resp == Unauthorized && tables == old(tables) && nextId == old(nextId)
      ensures claim.Some? ==>
        && resp == Created(old(nextId))
        && nextId == old(nextId) + 1
        && old(nextId) !in old(tables)
        && tables == old(tables)[old(nextId) := NewTable(body)]
    {
      if claim == None {
        return Unauthorized;
      }
      var id := nextId;
      tables := tables[id := NewTable(body)];
      nextId := nextId + 1;
      resp := Created(id);
    }

    /**
     The shared body of addRow, addColumn, deleteRow, deleteColumn and editCell:
     the gates, the fetch, the in-place change of the fetched grid, and the
     write-back of the whole grid.
     */
    method Mutate(claim: Option<Email>, email: Email, id: TableId, op: Op) returns (resp: Response)
      requires Valid()
      modifies this
      ensures Valid() && nextId == old(nextId)
      ensures (resp, tables) == Handle(old(tables), claim, email, id, op)
    {
      if claim == None {
        return Unauthorized;
      }
      if email != claim.value {
        return Forbidden;
      }
      var found := FindOne(tables, email, id);
      if found == None {
        return NotFound;
      }
      var table := found.value;
      var sheet := new Sheet(table.data);
      var failure := sheet.Perform(op);
      if failure.Some? {
        return BadRequest(Message(failure.value));
      }
      tables := tables[id := table.(data := sheet.rows)];
      resp := Acknowledged;
    }
  }
}
