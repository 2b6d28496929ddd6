/** What several modules say of sequences. */
module Sequences {

  predicate NoRepeats<T(==)>(s: seq<T>) {
    forall i, j | 0 <= i < j < |s| :: s[i] != s[j]
  }

  lemma Reassociate<T>(a: seq<T>, b: seq<T>, c: seq<T>)
    ensures a + (b + c) == a + b + c && a + [] == a && [] + a == a
  {
  }

  lemma DropEmpty<T>(a: seq<T>, b: seq<T>)
    ensures a + b + [] == a + b && a + [] + b == a + b
  {
  }

  /** `picked` are the elements of `all` at these places, in their order. */
  ghost predicate PicksOut<T>(all: seq<T>, picked: seq<T>, at: seq<int>) {
    && |at| == |picked| && (forall a, b | 0 <= a < b < |at| :: at[a] < at[b])
    && forall k | 0 <= k < |at| :: 0 <= at[k] < |all| && picked[k] == all[at[k]]
  }

  /** The elements of the first n places a test lets through. */
  ghost function PickedBy<T>(all: seq<T>, keep: int -> bool, n: nat): seq<T>
    requires n <= |all|
  {
    if n == 0 then [] else PickedBy(all, keep, n - 1) + if keep(n - 1) then [all[n - 1]] else []
  }

  lemma PicksOneMore<T>(all: seq<T>, picked: seq<T>, at: seq<int>, n: int)
    requires PicksOut(all, picked, at) && 0 <= n < |all| && forall k | 0 <= k < |at| :: at[k] < n
    ensures PicksOut(all, picked + [all[n]], at + [n])
  {
  }

  /** What grows place by place as a test says is what the test lets through. */
  lemma {:induction false} GrownIsPicked<T>(all: seq<T>, keep: int -> bool, grown: int -> seq<T>, n: nat)
    requires n <= |all| && grown(0) == []
    requires forall i: nat | i < n :: grown(i + 1) == grown(i) + if keep(i) then [all[i]] else []
    ensures grown(n) == PickedBy(all, keep, n)
  {
    if n > 0 {
      GrownIsPicked(all, keep, grown, n - 1);
      assert grown(n - 1 + 1) == grown(n);
    }
  }

  /** The places among the first n a test lets through. */
  ghost function PlacesOf(keep: int -> bool, n: nat): seq<int> {
    if n == 0 then [] else PlacesOf(keep, n - 1) + if keep(n - 1) then [n - 1] else []
  }

  lemma {:induction false} PlacesBelow(keep: int -> bool, n: nat)
    ensures forall k | 0 <= k < |PlacesOf(keep, n)| :: 0 <= PlacesOf(keep, n)[k] < n && keep(PlacesOf(keep, n)[k])
  {
    if n > 0 { PlacesBelow(keep, n - 1); }
  }

  lemma {:induction false} PlaceOf(keep: int -> bool, n: nat, i: nat) returns (k: nat)
    requires i < n && keep(i)
    ensures k < |PlacesOf(keep, n)| && PlacesOf(keep, n)[k] == i
  {
    if i == n - 1 {
      k := |PlacesOf(keep, n - 1)|;
    } else {
      k := PlaceOf(keep, n - 1, i);
    }
  }

  lemma {:induction false} PickedPlaces<T>(all: seq<T>, keep: int -> bool, n: nat)
    requires n <= |all|
    ensures PicksOut(all, PickedBy(all, keep, n), PlacesOf(keep, n))
  {
    if n > 0 {
      PickedPlaces(all, keep, n - 1);
      PlacesBelow(keep, n - 1);
      if keep(n - 1) { PicksOneMore(all, PickedBy(all, keep, n - 1), PlacesOf(keep, n - 1), n - 1); }
    }
  }

  /** Places picked in order are told apart by what they are. */
  lemma PlaceIsUnique<T>(all: seq<T>, picked: seq<T>, at: seq<int>, k: int, m: int)
    requires PicksOut(all, picked, at) && 0 <= k < |at| && 0 <= m < |at|
    ensures at[k] == at[m] <==> k == m
  {
    if k < m { assert at[k] < at[m]; }
    if m < k { assert at[m] < at[k]; }
  }
}
