/** Small facts about sequences that the transfer proofs share. */
module Seqs {
  /** Dropping the first element of a slice moves its start by one. */
  lemma SliceTail<T>(s: seq<T>, i: nat, j: nat)
    requires i < j <= |s|
    ensures s[i + 1..j] == s[i..j][1..]
  {
  }

  /** Storing `t[p]` at `p` extends the copied stretch `t[p..m]` of `s` by one. */
  lemma StoreAdvances<T>(s: seq<T>, t: seq<T>, p: nat, m: nat)
    requires p < m <= |s| && m <= |t|
    ensures s[p := t[p]][..p + 1] + t[p + 1..m] + s[p := t[p]][m..] == s[..p] + t[p..m] + s[m..]
  {
    var a := s[p := t[p]][..p + 1] + t[p + 1..m] + s[p := t[p]][m..];
    var b := s[..p] + t[p..m] + s[m..];
    assert |a| == |b|;
    forall i | 0 <= i < |a|
      ensures a[i] == b[i]
    {
    }
  }

  /** Storing the last of `t` after its other bytes leaves `t` followed by the rest of `s`. */
  lemma StoreLast<T>(s: seq<T>, t: seq<T>)
    requires 1 <= |t| <= |s|
    ensures (t[..|t| - 1] + s[|t| - 1..])[|t| - 1 := t[|t| - 1]] == t + s[|t|..]
  {
    var L := |t|;
    var a := (t[..L - 1] + s[L - 1..])[L - 1 := t[L - 1]];
    assert |a| == |t + s[L..]|;
    forall i | 0 <= i < |a|
      ensures a[i] == (t + s[L..])[i]
    {
    }
  }
}
