/** Small things several modules use. */
module Common {

  datatype Option<T> = None | Some(value: T)

  /** The first position that holds what is looked for, or the length. */
  function FirstIndex<T>(s: seq<T>, sought: T -> bool): (k: nat)
    ensures k <= |s| && (k < |s| ==> sought(s[k])) && forall i | 0 <= i < k :: !sought(s[i])
  {
    if s == [] || sought(s[0]) then 0 else 1 + FirstIndex(s[1..], sought)
  }
}
