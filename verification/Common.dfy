/** What every part of the model needs. */
module Common {

  datatype Option<T> = None | Some(value: T)

  /** A command that writes as many bytes is sent at once. */
  const DEFER_MAX := 1024

  lemma Regroup<T>(a: seq<T>, b: seq<T>, c: seq<T>)
    ensures a + b + c == a + (b + c)
  {
  }
}
