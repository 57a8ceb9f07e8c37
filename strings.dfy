/** Substring search as Go's `strings.Contains` performs it. */
module Strings {

  /** `sub` occurs in `s` as a contiguous run; the empty string occurs in every string. */
  predicate Contains(s: string, sub: string)
    decreases |s|
  {
    |sub| <= |s| && (s[..|sub|] == sub || (|s| > 0 && Contains(s[1..], sub)))
  }

  /** `sub` occurs in `s` starting at position `i`. */
  ghost predicate OccursAt(s: string, sub: string, i: int)
  {
    0 <= i && i + |sub| <= |s| && s[i..i + |sub|] == sub
  }

  /** `sub` occurs somewhere in `s`: the reference definition `Contains` is checked against. */
  ghost predicate Occurs(s: string, sub: string)
  {
    exists i :: OccursAt(s, sub, i)
  }

  lemma {:induction false} ContainsIffOccurs(s: string, sub: string)
    ensures Contains(s, sub) <==> Occurs(s, sub)
    decreases |s|
  {
    if |sub| > |s| {
      assert !Occurs(s, sub);
    } else if s[..|sub|] == sub {
      assert OccursAt(s, sub, 0);
    } else if |s| > 0 {
      ContainsIffOccurs(s[1..], sub);
      if Contains(s[1..], sub) {
        var i :| OccursAt(s[1..], sub, i);
        SliceShift(s, i, |sub|);
        assert OccursAt(s, sub, i + 1);
      }
      if Occurs(s, sub) {
        var i :| OccursAt(s, sub, i);
        assert i != 0;
        SliceShift(s, i - 1, |sub|);
        assert OccursAt(s[1..], sub, i - 1);
      }
    }
  }

  /** A slice of the tail is the slice of the whole shifted by one. */
  lemma SliceShift(s: string, i: nat, k: nat)
    requires i + k < |s|
    ensures s[1..][i..i + k] == s[i + 1..i + 1 + k]
  {
    var a, b := s[1..][i..i + k], s[i + 1..i + 1 + k];
    assert forall j :: 0 <= j < k ==> a[j] == b[j];
  }

}
