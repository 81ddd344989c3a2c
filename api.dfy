/**
  What the admin route handlers share: the JSON response they answer with,
  the database table they write through the ORM, the framework's page cache
  they revalidate, and the queries they hand to the ORM.
 */
module Api {
  import opened JsText

  const UnauthorizedError: string := "Unauthorized"

  /** `NextResponse.json(value, { status })` for a result or for an error
      object `{ error }`. */
  datatype Response<T> = Json(status: int, value: T) | JsonError(status: int, error: string)

  /** The order a list query asks the database for. */
  datatype Order = CreatedAtDesc | NameAsc

  /** One table of the database as the handlers see it: its rows, oldest first. */
  class Table<T> {
    var rows: seq<T>

    constructor (initial: seq<T>)
      ensures rows == initial
    {
      rows := initial;
    }

    /** `create({ data })`: the new row is stored after all existing ones. */
    method Create(row: T)
      modifies this
      ensures rows == old(rows) + [row]
    {
      rows := rows + [row];
    }
  }

  /** `revalidatePath(path, 'layout')` and `revalidatePath(path)`. */
  datatype Revalidation = Layout(path: string) | Page(path: string)

  /** The framework's page cache: every revalidation requested, in order. */
  class PageCache {
    var revalidated: seq<Revalidation>

    constructor ()
      ensures revalidated == []
    {
      revalidated := [];
    }

    /** `revalidatePath` called for each of `rs`, in order. */
    method Revalidate(rs: seq<Revalidation>)
      modifies this
      ensures revalidated == old(revalidated) + rs
    {
      revalidated := revalidated + rs;
    }
  }
}
