/** Optional values. */
module Options {

  datatype Option<+T> = None | Some(value: T)

  /** The JavaScript `??` operator. */
  function Coalesce<T>(first: Option<T>, second: Option<T>): Option<T> {
    if first.Some? then first else second
  }
}
