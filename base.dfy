/** Small shared vocabulary: optional values, bytes, and lists viewed as sets. */
module Base {

  datatype Option<+T> = None | Some(value: T) {
    function GetOr(default: T): T {
      match this
      case Some(v) => v
      case None => default
    }
  }

  /** One octet as carried by a socket. */
  newtype byte = x: int | 0 <= x < 256

  /** The members of a list, as `x in lst` sees them. */
  function Elems<T>(s: seq<T>): set<T> {
    set x | x in s
  }

  /** No element appears twice. */
  predicate NoDuplicates<T(==)>(s: seq<T>) {
    forall i, j :: 0 <= i < j < |s| ==> s[i] != s[j]
  }
}
