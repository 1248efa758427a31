/** Nullable columns and optional arguments. */
module Options {
  datatype Option<+T> = None | Some(value: T) {
    /** The value, or `default` when absent. */
    function Or(default: T): T {
      if Some? then value else default
    }
  }
}
