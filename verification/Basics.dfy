/** What several modules use. */
module Basics {
  datatype Option<+T> = None | Some(value: T)

  function Min(x: int, y: int): (m: int)
    ensures x >= 0 && y >= 0 ==> m >= 0
  {
    if x <= y then x else y
  }

  lemma SubsetSize<T>(s: set<T>, t: set<T>)
    requires s <= t
    ensures |s| <= |t|
  {
    assert t == s + (t - s);
  }
}
