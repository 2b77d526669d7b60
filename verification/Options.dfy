/** Values that may be absent: null, undefined, SQL NULL, or the miss of a lookup. */
module Options {

  datatype Option<+T> = None | Some(value: T) {

    function GetOr(default: T): T {
      if None? then default else value
    }
  }
}
