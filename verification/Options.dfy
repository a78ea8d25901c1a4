/** Columns that may hold NULL, and rows that may get a new primary key. */
module Options {
  datatype Option<+T> = None | Some(value: T)

  /** The rows after an UPDATE that names row id, its new id and its whole new content. */
  function Moved<K, T>(rows: map<K, T>, id: K, newId: K, row: T): map<K, T> {
    (rows - {id})[newId := row]
  }
}
