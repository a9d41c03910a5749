/** What several components share. */
module Basics {

  datatype Option<T> = None | Some(value: T)

  type byte = b: int | 0 <= b < 0x100

  ghost predicate Distinct<T>(s: seq<T>) {
    forall i, j :: 0 <= i < j < |s| ==> s[i] != s[j]
  }

  /** How often each element occurs in three sequences together. */
  ghost function Sum<T>(r: seq<T>, s: seq<T>, t: seq<T>): multiset<T> {
    multiset(r) + multiset(s) + multiset(t)
  }
}
