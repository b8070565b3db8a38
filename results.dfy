/** Success-or-error values, used where the script raises an exception. */
module Results {

  datatype Result<+T, +E> = Ok(value: T) | Err(error: E)
}
