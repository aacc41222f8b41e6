/**
 The per-owner index is an ordered list of appointment ids; this module holds
 the two list facts it needs: no id twice, and deleting one id.
 */
module Seqs {

  /** No element occurs twice. */
  ghost predicate Distinct<T>(s: seq<T>) {
    forall i, j :: 0 <= i < j < |s| ==> s[i] != s[j]
  }

  /** `s` with every occurrence of `x` deleted, the rest kept in order. */
  function Without(s: seq<nat>, x: nat): (r: seq<nat>)
    ensures x !in r
    ensures forall y :: y in r <==> y in s && y != x
    ensures |r| <= |s|
    ensures x !in s ==> r == s
    ensures Distinct(s) ==> Distinct(r)
    ensures Distinct(s) && x in s ==> |r| == |s| - 1
  {
    if s == [] then []
    else
      var rest := Without(s[1..], x);
      assert s == [s[0]] + s[1..];
      ConsDistinct(s[0], s[1..]);
      if s[0] == x then rest
      else
        ConsDistinct(s[0], rest);
        [s[0]] + rest
  }

  /** A list with a head is free of repeats exactly when its tail is and the
      head does not occur in the tail. */
  lemma ConsDistinct<T>(h: T, t: seq<T>)
    ensures Distinct([h] + t) <==> h !in t && Distinct(t)
  {
    var s := [h] + t;
    if h !in t && Distinct(t) {
      forall i, j | 0 <= i < j < |s|
        ensures s[i] != s[j]
      {
        if i > 0 {
          assert s[i] == t[i - 1] && s[j] == t[j - 1];
        } else {
          assert s[j] == t[j - 1];
        }
      }
    }
    if Distinct(s) {
      forall i, j | 0 <= i < j < |t|
        ensures t[i] != t[j]
      {
        assert t[i] == s[i + 1] && t[j] == s[j + 1];
      }
      forall k | 0 <= k < |t|
        ensures t[k] != h
      {
        assert s[0] == h && s[k + 1] == t[k];
      }
    }
  }

  /** Appending an element that is not there yet keeps a list free of repeats,
      and the new element is the only occurrence, at the end. */
  lemma {:induction false} AppendFresh<T>(s: seq<T>, x: T)
    requires Distinct(s) && x !in s
    ensures Distinct(s + [x])
    ensures (s + [x])[|s|] == x
    ensures forall i :: 0 <= i < |s + [x]| && (s + [x])[i] == x ==> i == |s|
  {
    var t := s + [x];
    forall i, j | 0 <= i < j < |t|
      ensures t[i] != t[j]
    {
      if j == |s| {
        assert t[i] == s[i];
      }
    }
  }

  /** Deleting an element that was just appended to a list not holding it
      gives the list back. */
  lemma {:induction false} WithoutAppended(s: seq<nat>, x: nat)
    requires x !in s
    ensures Without(s + [x], x) == s
  {
    if s != [] {
      assert (s + [x])[1..] == s[1..] + [x];
      WithoutAppended(s[1..], x);
    } else {
      assert [x][1..] == [];
    }
  }
}
