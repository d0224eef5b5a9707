/** The zero-uncertainty repair of `fit_tf`: a look-back loop over the array
    of fit uncertainties that replaces every zero by the value just before
    it, where "just before" index 0 is Python's index -1, the last slot. */
module Repair {

  /** The value slot i holds once the loop has passed it: a non-zero entry is
      kept; a zero takes the already repaired slot i - 1, or at i = 0 the
      (still untouched) last slot. */
  function RepairedAt(s: seq<real>, i: nat): real
    requires i < |s|
    decreases i
  {
    if s[i] != 0.0 then s[i]
    else if i == 0 then s[|s| - 1]
    else RepairedAt(s, i - 1)
  }

  /** The whole array after the loop. */
  function Repaired(s: seq<real>): (r: seq<real>)
    ensures |r| == |s|
  {
    seq(|s|, i requires 0 <= i < |s| => RepairedAt(s, i))
  }

  /** Python's `a[i]` for -n <= i < n. */
  function PyIndex(i: int, n: nat): nat
    requires -(n as int) <= i < n
  {
    if i < 0 then i + n else i
  }

  /** The repair loop, in place: each zero entry, visited in index order,
      is overwritten with the entry at Python index i - 1. */
  method RepairZeroUncertainties(dtf: array<real>)
    modifies dtf
    ensures dtf[..] == Repaired(old(dtf[..]))
  {
    ghost var s := dtf[..];
    var i := 0;
    while i < dtf.Length
      invariant 0 <= i <= dtf.Length
      invariant forall k :: 0 <= k < i ==> dtf[k] == RepairedAt(s, k)
      invariant forall k :: i <= k < dtf.Length ==> dtf[k] == s[k]
    {
      if dtf[i] == 0.0 {
        dtf[i] := dtf[PyIndex(i - 1, dtf.Length)];
      }
      i := i + 1;
    }
  }

  /** Entries that are not zero are left as they are. */
  lemma RepairKeepsNonZero(s: seq<real>, i: nat)
    requires i < |s| && s[i] != 0.0
    ensures Repaired(s)[i] == s[i]
  {
  }

  /** A zero after the first slot takes the repaired value of the slot before
      it, so runs of zeros are filled forward. */
  lemma RepairLooksBack(s: seq<real>, i: nat)
    requires 0 < i < |s| && s[i] == 0.0
    ensures Repaired(s)[i] == Repaired(s)[i - 1]
  {
  }

  /** A zero in the first slot wraps around to the last slot. */
  lemma RepairWrapsAtStart(s: seq<real>)
    requires |s| > 0 && s[0] == 0.0
    ensures Repaired(s)[0] == s[|s| - 1]
  {
  }

  /** Reference characterisation: a repaired slot holds the nearest non-zero
      entry at or before it. */
  lemma {:induction false} RepairTakesNearestPreceding(s: seq<real>, i: nat, j: nat)
    requires j <= i < |s| && s[j] != 0.0
    requires forall k :: j < k <= i ==> s[k] == 0.0
    ensures Repaired(s)[i] == s[j]
  {
    if i > j {
      RepairTakesNearestPreceding(s, i - 1, j);
    }
  }

  /** When every entry up to i is zero, slot i takes the last entry. */
  lemma {:induction false} RepairLeadingZeros(s: seq<real>, i: nat)
    requires i < |s|
    requires forall k :: 0 <= k <= i ==> s[k] == 0.0
    ensures Repaired(s)[i] == s[|s| - 1]
  {
    if i > 0 {
      RepairLeadingZeros(s, i - 1);
    }
  }

  /** So the repair removes every zero exactly when the first entry is non-zero
      or the last entry is: a slot stays zero only if it and everything before
      it is zero and so is the last entry. */
  lemma {:induction false} RepairRemovesZeros(s: seq<real>)
    requires |s| > 0
    ensures (forall i :: 0 <= i < |s| ==> Repaired(s)[i] != 0.0)
        <==> (s[0] != 0.0 || s[|s| - 1] != 0.0)
  {
    if s[0] != 0.0 || s[|s| - 1] != 0.0 {
      forall i | 0 <= i < |s|
        ensures Repaired(s)[i] != 0.0
      {
        NonZeroAfterRepair(s, i);
      }
    } else {
      assert Repaired(s)[0] == 0.0;
    }
  }

  lemma {:induction false} NonZeroAfterRepair(s: seq<real>, i: nat)
    requires i < |s| && (s[0] != 0.0 || s[|s| - 1] != 0.0)
    ensures Repaired(s)[i] != 0.0
  {
    if s[i] == 0.0 && i > 0 {
      NonZeroAfterRepair(s, i - 1);
    }
  }

  /** A worked case: uncertainties [0.1, 0, 0.3] are repaired
      to [0.1, 0.1, 0.3] (look-back, not look-ahead). */
  lemma RepairExample()
    ensures Repaired([0.1, 0.0, 0.3]) == [0.1, 0.1, 0.3]
  {
    var s := [0.1, 0.0, 0.3];
    assert Repaired(s)[1] == RepairedAt(s, 0);
  }
}
