/** What several of the models share. */
module Common {

  datatype Option<+T> = None | Some(value: T)

  datatype Result<+T, +E> = Ok(value: T) | Err(error: E)

  /** CasefoldName or CasefoldChannel, and Skeleton: partial functions about which nothing is assumed.
      In particular names with equal casefolding may have different skeletons. */
  datatype Folding = Folding(casefold: string -> Option<string>, skeleton: string -> Option<string>)

  /** A number that is not in `used`; it stands for a new goroutine or object. */
  ghost function Unused(used: set<nat>): (n: nat)
    ensures n !in used
    ensures forall m :: m in used ==> m < n
  {
    if used == {} then 0
    else
      var m :| m in used;
      var n := Unused(used - {m});
      assert forall k :: k in used ==> k == m || k in used - {m};
      if n < m + 1 then m + 1 else n
  }
}
