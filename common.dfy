/** Values as they arrive in a JSON request body, and JavaScript truthiness on them. */
module Common {

  /** A nullable column value: SQL NULL or a value. */
  datatype Option<+T> = None | Some(value: T)

  /** A key of a JSON request body: left out (`undefined` once destructured), `null`, or a value. */
  datatype Field<+T> = Missing | Null | Given(value: T)

  /** The key is in the body. A left-out key reaches mysql2's `execute` as `undefined`,
      which it refuses to bind (the handler's catch then answers 500). */
  predicate Sent<T>(field: Field<T>)
  {
    !field.Missing?
  }

  /** The column value a sent key binds: `null` is SQL NULL. */
  function Column<T>(field: Field<T>): (r: Option<T>)
    ensures r.Some? <==> field.Given?
    ensures r.Some? ==> r.value == field.value
  {
    if field.Given? then Some(field.value) else None
  }

  /** `!!field` for a text field of the body: missing, `null` and `""` are falsy. */
  predicate Truthy(field: Field<string>)
  {
    field.Given? && field.value != ""
  }

  /** `!!field` for a numeric field of the body: missing, `null` and `0` are falsy. */
  predicate TruthyNum(field: Field<int>)
  {
    field.Given? && field.value != 0
  }

  /** `field || 0` for a numeric field: a given number is kept (0 included), a missing or `null` one becomes 0. */
  function OrZero(field: Field<int>): (r: int)
    ensures field.Given? ==> r == field.value
    ensures !field.Given? ==> r == 0
  {
    if TruthyNum(field) then field.value else 0
  }
}
