/** Failure-compatible values shared by the model: an optional value (Ruby's
    `nil` or a value) and the result of an operation that may raise. */
module Outcomes {

  datatype Option<+T> = None | Some(value: T)

  /** The exceptions the handler can raise. `NotFoundError` stands for the
      `RuntimeError` with message "NotFoundError" raised when no SMS or no
      code is available (there is no exception class of that name);
      `NoMethodError` is what Ruby raises when `empty?` is sent to `nil`. */
  datatype Failure = NotFoundError | NoMethodError

  datatype Result<+T> = Ok(value: T) | Err(error: Failure)

  /** Ruby's `hash[key]`: the value stored under `key`, or `nil`. */
  function Lookup<K, V>(m: map<K, V>, key: K): (r: Option<V>)
    ensures r.Some? <==> key in m
    ensures r.Some? ==> m[key] == r.value
  {
    if key in m then Some(m[key]) else None
  }
}
