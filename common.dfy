/** Small helpers shared by the route guard and the API handlers. */
module Common {

  /** A value that may be absent (a missing session, token, claim or row). */
  datatype Option<+T> = None | Some(value: T)

  /** JavaScript's `s.startsWith(p)`. */
  predicate StartsWith(s: string, p: string) {
    |p| <= |s| && s[..|p|] == p
  }

  /** A string starts with `p` only if it agrees with `p` at every position of `p`. */
  lemma PrefixChar(s: string, p: string, k: nat)
    requires StartsWith(s, p) && k < |p|
    ensures s[k] == p[k]
  {
  }

  /** One differing character rules a prefix out. */
  lemma NotPrefixAt(s: string, p: string, k: nat)
    requires k < |s| && k < |p| && s[k] != p[k]
    ensures !StartsWith(s, p)
  {
  }
}
