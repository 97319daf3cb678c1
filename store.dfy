/** The `clipboard` table of the database, keyed by share code. */
module ShareStore {
  import opened Js

  /** One share record as stored. The code is the key under which the row is kept. */
  datatype Row = Row(
    text: Option<string>,
    fileUrl: Option<string>,
    publicId: Option<string>,
    expiresAt: int  // milliseconds since the epoch
  )

  /** The table, updated in place by `create` and read by `findUnique`. */
  class Clipboard {
    var rows: map<string, Row>

    constructor ()
      ensures rows == map[]
    {
      rows := map[];
    }

    /** `findUnique({ where: { code } })`: the row under `code`, or null. */
    function FindUnique(code: string): (r: Option<Row>)
      reads this
      ensures r.Some? <==> code in rows
      ensures r.Some? ==> r.value == rows[code]
    {
      if code in rows then Some(rows[code]) else None
    }

    /** `create({ data })`: inserts a row; the unique key on `code` refuses a duplicate. */
    method Create(code: string, row: Row) returns (ok: bool)
      modifies this
      ensures ok <==> code !in old(rows)
      ensures rows == if ok then old(rows)[code := row] else old(rows)
    {
      ok := code !in rows;
      if ok {
        rows := rows[code := row];
      }
    }
  }
}
