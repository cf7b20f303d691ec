/** Substring search with the meaning of `std::string::find`. */
module Text {
  import opened Wrappers

  /** `sub` occurs in `s` starting at position `k`. */
  predicate OccursAt(s: string, sub: string, k: nat)
  {
    k + |sub| <= |s| && s[k..k + |sub|] == sub
  }

  /** `sub` is a (case-sensitive, contiguous) substring of `s`. */
  ghost predicate Contains(s: string, sub: string)
  {
    exists k: nat :: OccursAt(s, sub, k)
  }

  /**
   * The first position at or after `from` where `sub` occurs in `s`, or None
   * (the library's `npos`) when there is none. An empty `sub` occurs at `from`.
   */
  function Find(s: string, sub: string, from: nat): Option<nat>
    decreases |s| - from
  {
    if from + |sub| > |s| then None
    else if s[from..from + |sub|] == sub then Some(from)
    else Find(s, sub, from + 1)
  }

  /** `Find` returns the first occurrence at or after `from`, and None only when there is none. */
  lemma {:induction false} FindFirst(s: string, sub: string, from: nat)
    ensures Find(s, sub, from).Some? ==>
              from <= Find(s, sub, from).value && OccursAt(s, sub, Find(s, sub, from).value)
    ensures Find(s, sub, from).Some? ==>
              forall k: nat :: from <= k < Find(s, sub, from).value ==> !OccursAt(s, sub, k)
    ensures Find(s, sub, from).None? ==> forall k: nat :: from <= k ==> !OccursAt(s, sub, k)
    decreases |s| - from
  {
    if from + |sub| <= |s| && s[from..from + |sub|] != sub {
      FindFirst(s, sub, from + 1);
    }
  }

  /** The test `s.find(sub) != npos` holds exactly when `sub` is a substring of `s`. */
  lemma FoundIffContains(s: string, sub: string)
    ensures Find(s, sub, 0).Some? <==> Contains(s, sub)
  {
    FindFirst(s, sub, 0);
    if Find(s, sub, 0).Some? {
      assert OccursAt(s, sub, Find(s, sub, 0).value);
    }
  }

  /**
   * The path of any object nested under `parent` (the parent's path followed by
   * more segments) passes the `find(parent)` test, at position 0.
   */
  lemma NestedPathFound(parent: string, rest: string)
    ensures Find(parent + rest, parent, 0) == Some(0)
  {
  }
}
