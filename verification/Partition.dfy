/** Splitting a sequence by a predicate without changing the order of either part. */
module Partition {

  function Keep<T>(drop: T -> bool, s: seq<T>): (r: seq<T>)
    ensures |r| <= |s|
  {
    if s == [] then []
    else Keep(drop, s[..|s| - 1]) + (if drop(s[|s| - 1]) then [] else [s[|s| - 1]])
  }

  function Not<T>(p: T -> bool): T -> bool {
    x => !p(x)
  }

  function Dropped<T>(drop: T -> bool, s: seq<T>): seq<T> {
    Keep(Not(drop), s)
  }

  lemma {:induction false} KeepSnoc<T>(drop: T -> bool, s: seq<T>, x: T)
    ensures Keep(drop, s + [x]) == Keep(drop, s) + (if drop(x) then [] else [x])
  {
    assert (s + [x])[..|s|] == s;
  }

  lemma {:induction false} KeepFront<T>(drop: T -> bool, s: seq<T>)
    requires s != []
    ensures Keep(drop, s) == (if drop(s[0]) then [] else [s[0]]) + Keep(drop, s[1..])
  {
    var t, x := s[..|s| - 1], s[|s| - 1];
    if t == [] {
      assert s == [x] && s[1..] == [];
    } else {
      assert t[0] == s[0] && s == t + [x] && s[1..] == t[1..] + [x];
      KeepFront(drop, t);
      KeepSnoc(drop, t, x);
      KeepSnoc(drop, t[1..], x);
    }
  }

  // Stability: a kept element lands at the index that counts the kept elements
  // before it, and nothing else is in the result.
  lemma {:induction false} KeepIsStable<T>(drop: T -> bool, s: seq<T>, i: nat)
    requires i < |s|
    ensures |Keep(drop, s[..i])| <= |Keep(drop, s)|
    ensures !drop(s[i]) ==> |Keep(drop, s[..i])| < |Keep(drop, s)|
                            && Keep(drop, s)[|Keep(drop, s[..i])|] == s[i]
  {
    var t := s[..|s| - 1];
    if i < |t| {
      KeepIsStable(drop, t, i);
      assert t[..i] == s[..i];
    } else {
      assert t == s[..i];
    }
  }

  lemma {:induction false} KeepOnlyKept<T>(drop: T -> bool, s: seq<T>)
    ensures forall x :: x in Keep(drop, s) <==> x in s && !drop(x)
  {
    if s != [] {
      var t := s[..|s| - 1];
      KeepOnlyKept(drop, t);
      assert s == t + [s[|s| - 1]];
    }
  }

  // Nothing is lost and nothing is duplicated.
  lemma {:induction false} PartitionIsExact<T>(drop: T -> bool, s: seq<T>)
    ensures multiset(s) == multiset(Keep(drop, s)) + multiset(Dropped(drop, s))
  {
    if s != [] {
      var t, x := s[..|s| - 1], s[|s| - 1];
      PartitionIsExact(drop, t);
      assert s == t + [x];
      KeepSnoc(drop, t, x);
      KeepSnoc(Not(drop), t, x);
    }
  }

  lemma {:induction false} PartsAddUp<T>(drop: T -> bool, s: seq<T>)
    ensures |Keep(drop, s)| + |Dropped(drop, s)| == |s|
  {
    PartitionIsExact(drop, s);
    assert |multiset(s)| == |multiset(Keep(drop, s))| + |multiset(Dropped(drop, s))|;
  }
}
