/** Optional values. `None` stands for JavaScript's `undefined`, which is what
    reading a typed array outside its bounds yields. */
module Options {

  datatype Option<+T> = None | Some(value: T) {

    /** The wrapped value, or `default` when there is none. */
    function GetOr(default: T): T
    {
      match this
      case Some(v) => v
      case None => default
    }
  }
}
