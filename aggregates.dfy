/**
 * The pandas column reductions the statistics use, on plain sequences:
 * `mode()[0]`, `value_counts()`, `min()` and `max()`.
 */
module Aggregates {

  /** Number of occurrences of `x` in `s`. */
  function Count<T(==)>(s: seq<T>, x: T): (n: nat)
    ensures n <= |s|
    ensures n > 0 <==> x in s
  {
    if s == [] then 0 else (if s[0] == x then 1 else 0) + Count(s[1..], x)
  }

  /** Count agrees with the multiplicity in the multiset of `s`. */
  lemma {:induction false} CountIsMultiplicity<T>(s: seq<T>, x: T)
    ensures Count(s, x) == multiset(s)[x]
  {
    if s != [] {
      CountIsMultiplicity(s[1..], x);
      assert s == [s[0]] + s[1..];
    }
  }

  /** `x` is a most common value of `s`: it occurs, and no value of `s`
      occurs more often (a value outside `s` occurs zero times). */
  predicate IsMode<T(==)>(s: seq<T>, x: T)
  {
    x in s && forall i :: 0 <= i < |s| ==> Count(s, s[i]) <= Count(s, x)
  }

  /** Scans positions `i..` of `s`, keeping a value whose count is maximal
      among the positions seen so far. */
  function ModeFrom<T(==)>(s: seq<T>, i: nat, best: T): (m: T)
    requires i <= |s| && best in s
    requires forall j :: 0 <= j < i ==> Count(s, s[j]) <= Count(s, best)
    ensures IsMode(s, m)
    decreases |s| - i
  {
    if i == |s| then best
    else ModeFrom(s, i + 1, if Count(s, s[i]) > Count(s, best) then s[i] else best)
  }

  /** `s.mode()[0]` on a non-empty column: some most common value. Which
      one pandas reports among several tied values is not modelled. */
  function Mode<T(==)>(s: seq<T>): (m: T)
    requires |s| > 0
    ensures IsMode(s, m)
  {
    ModeFrom(s, 0, s[0])
  }

  /** A value strictly more common than every other one is the mode. */
  lemma ModeIsUnique<T>(s: seq<T>, x: T)
    requires x in s
    requires forall i :: 0 <= i < |s| && s[i] != x ==> Count(s, s[i]) < Count(s, x)
    ensures Mode(s) == x
  {
  }

  /** `min()` of a non-empty column. */
  function Min(s: seq<real>): (m: real)
    requires |s| > 0
    ensures m in s
    ensures forall i :: 0 <= i < |s| ==> m <= s[i]
  {
    if |s| == 1 then s[0]
    else
      var rest := Min(s[1..]);
      if s[0] <= rest then s[0] else rest
  }

  /** `max()` of a non-empty column. */
  function Max(s: seq<real>): (m: real)
    requires |s| > 0
    ensures m in s
    ensures forall i :: 0 <= i < |s| ==> s[i] <= m
  {
    if |s| == 1 then s[0]
    else
      var rest := Max(s[1..]);
      if s[0] >= rest then s[0] else rest
  }

  predicate NoDuplicates<T(==)>(s: seq<T>)
  {
    forall i, j :: 0 <= i < j < |s| ==> s[i] != s[j]
  }

  /** The distinct values of `s`, in order of first occurrence. */
  function Distinct<T(==)>(s: seq<T>): (d: seq<T>)
    ensures NoDuplicates(d)
    ensures forall i :: 0 <= i < |d| ==> d[i] in s
    ensures forall i :: 0 <= i < |s| ==> s[i] in d
  {
    if s == [] then []
    else
      var d := Distinct(s[..|s| - 1]);
      if s[|s| - 1] in d then d else d + [s[|s| - 1]]
  }

  /** Each value of `keys` paired with its number of occurrences in `s`. */
  function Tally<T(==)>(keys: seq<T>, s: seq<T>): (vc: seq<(T, nat)>)
    ensures |vc| == |keys|
    ensures forall i :: 0 <= i < |keys| ==> vc[i] == (keys[i], Count(s, keys[i]))
  {
    if keys == [] then [] else [(keys[0], Count(s, keys[0]))] + Tally(keys[1..], s)
  }

  /** Sum of the counts of a `value_counts()` result. */
  function TotalCount<T>(vc: seq<(T, nat)>): nat
  {
    if vc == [] then 0 else vc[0].1 + TotalCount(vc[1..])
  }

  /** `s.value_counts()`: every distinct value of `s` exactly once, with the
      number of times it occurs; the counts add up to `|s|`. */
  function ValueCounts<T(==)>(s: seq<T>): (vc: seq<(T, nat)>)
    ensures forall i, j :: 0 <= i < j < |vc| ==> vc[i].0 != vc[j].0
    ensures forall i :: 0 <= i < |vc| ==> vc[i].0 in s && vc[i].1 == Count(s, vc[i].0)
    ensures forall j :: 0 <= j < |s| ==> exists i :: 0 <= i < |vc| && vc[i].0 == s[j]
    ensures TotalCount(vc) == |s|
  {
    var keys := Distinct(s);
    TallyTotal(keys, s);
    var vc := Tally(keys, s);
    assert forall j :: 0 <= j < |s| ==> exists i :: 0 <= i < |vc| && vc[i].0 == s[j] by {
      forall j | 0 <= j < |s| ensures exists i :: 0 <= i < |vc| && vc[i].0 == s[j] {
        var i :| 0 <= i < |keys| && keys[i] == s[j];
        assert vc[i].0 == s[j];
      }
    }
    vc
  }

  lemma {:induction false} TallyEmpty<T>(keys: seq<T>)
    ensures TotalCount(Tally(keys, [])) == 0
  {
    if keys != [] {
      TallyEmpty(keys[1..]);
      assert Tally(keys, [])[1..] == Tally(keys[1..], []);
    }
  }

  /** One more element `x` adds one to the tally for every copy of `x` among the keys. */
  lemma {:induction false} TallyCons<T>(keys: seq<T>, x: T, t: seq<T>)
    ensures TotalCount(Tally(keys, [x] + t)) == Count(keys, x) + TotalCount(Tally(keys, t))
  {
    if keys != [] {
      TallyCons(keys[1..], x, t);
      assert ([x] + t)[1..] == t;
      assert Tally(keys, [x] + t)[1..] == Tally(keys[1..], [x] + t);
      assert Tally(keys, t)[1..] == Tally(keys[1..], t);
    }
  }

  lemma {:induction false} CountUnique<T>(keys: seq<T>, x: T)
    requires NoDuplicates(keys) && x in keys
    ensures Count(keys, x) == 1
  {
    if keys[0] != x {
      CountUnique(keys[1..], x);
    }
  }

  /** Over duplicate-free keys that cover `s`, the counts add up to `|s|`. */
  lemma {:induction false} TallyTotal<T>(keys: seq<T>, s: seq<T>)
    requires NoDuplicates(keys)
    requires forall i :: 0 <= i < |s| ==> s[i] in keys
    ensures TotalCount(Tally(keys, s)) == |s|
  {
    if s == [] {
      TallyEmpty(keys);
    } else {
      assert s == [s[0]] + s[1..];
      TallyCons(keys, s[0], s[1..]);
      CountUnique(keys, s[0]);
      TallyTotal(keys, s[1..]);
    }
  }
}
