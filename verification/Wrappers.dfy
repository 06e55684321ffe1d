/** Optional and fallible results, and a truth value as a count. */
module Wrappers {

  datatype Option<+T> = None | Some(value: T)

  datatype Result<+T, +E> = Ok(value: T) | Err(error: E)

  function One(b: bool): nat {
    if b then 1 else 0
  }

  /** A number above all in use. */
  lemma Above(used: set<nat>) returns (b: nat)
    ensures forall x :: x in used ==> x < b
  {
    if used == {} {
      b := 0;
    } else {
      var m :| m in used;
      var a := Above(used - {m});
      b := if a > m then a else m + 1;
      assert forall x :: x in used ==> x == m || x in used - {m};
    }
  }
}
