/** Who stands before whom in a sequence without repetition, and what keeps that order. */
module Order {
  import opened Partition

  ghost predicate Before<T(!new)>(s: seq<T>, x: T, y: T) {
    exists i, j :: 0 <= i < j < |s| && s[i] == x && s[j] == y
  }

  ghost predicate Once<T(!new)>(s: seq<T>) {
    forall x :: multiset(s)[x] <= 1
  }

  // Those that are in both sequences stand in the same order.
  ghost predicate SameOrder<T(!new)>(s: seq<T>, t: seq<T>) {
    forall x, y :: Before(s, x, y) && x in t && y in t ==> Before(t, x, y)
  }

  lemma BeforeJoined<T(!new)>(a: seq<T>, b: seq<T>, x: T, y: T)
    ensures Before(a + b, x, y) <==> Before(a, x, y) || Before(b, x, y) || (x in a && y in b)
  {
    if Before(a, x, y) {
      var i, j :| 0 <= i < j < |a| && a[i] == x && a[j] == y;
      assert (a + b)[i] == x && (a + b)[j] == y;
    }
    if Before(b, x, y) {
      var i, j :| 0 <= i < j < |b| && b[i] == x && b[j] == y;
      assert (a + b)[|a| + i] == x && (a + b)[|a| + j] == y;
    }
    if x in a && y in b {
      var i :| 0 <= i < |a| && a[i] == x;
      var j :| 0 <= j < |b| && b[j] == y;
      assert (a + b)[i] == x && (a + b)[|a| + j] == y;
    }
    if Before(a + b, x, y) {
      var i, j :| 0 <= i < j < |a + b| && (a + b)[i] == x && (a + b)[j] == y;
      SplitAt(a, b, i, j, x, y);
    }
  }

  lemma SplitAt<T(!new)>(a: seq<T>, b: seq<T>, i: nat, j: nat, x: T, y: T)
    requires i < j < |a + b| && (a + b)[i] == x && (a + b)[j] == y
    ensures Before(a, x, y) || Before(b, x, y) || (x in a && y in b)
  {
    if j < |a| {
      assert a[i] == x && a[j] == y;
    } else if i < |a| {
      assert a[i] == x && b[j - |a|] == y;
    } else {
      assert b[i - |a|] == x && b[j - |a|] == y;
    }
  }

  lemma BeforeMembers<T(!new)>(s: seq<T>, x: T, y: T)
    requires Before(s, x, y)
    ensures x in s && y in s && (Once(s) ==> x != y)
  {
    var i, j :| 0 <= i < j < |s| && s[i] == x && s[j] == y;
    assert s == s[..j] + s[j..] && s[..j][i] == x && s[j..][0] == y;
    assert multiset(s)[x] == multiset(s[..j])[x] + multiset(s[j..])[x] && x in multiset(s[..j]) &&
           y in multiset(s[j..]);
  }

  lemma OncePart<T(!new)>(a: seq<T>, b: seq<T>)
    requires Once(a + b)
    ensures Once(a) && Once(b) && forall x :: x in a ==> x !in b
  {
    assert multiset(a + b) == multiset(a) + multiset(b);
    forall x
      ensures multiset(a)[x] <= 1 && multiset(b)[x] <= 1 && (x in a ==> x !in b)
    {
      assert multiset(a + b)[x] <= 1;
    }
  }

  // One element leaves.
  lemma TakenOut<T(!new)>(a: seq<T>, e: T, b: seq<T>)
    requires Once(a + [e] + b)
    ensures Once(a + b) && SameOrder(a + [e] + b, a + b)
  {
    var s, t := a + [e] + b, a + b;
    assert multiset(s) == multiset(t) + multiset{e};
    forall x
      ensures multiset(t)[x] <= 1 && (x in t ==> x != e)
    {
      assert multiset(s)[x] <= 1;
    }
    forall x, y | Before(s, x, y) && x in t && y in t
      ensures Before(t, x, y)
    {
      BeforeJoined(a + [e], b, x, y);
      BeforeJoined(a, [e], x, y);
      BeforeJoined(a, b, x, y);
      assert !Before([e], x, y);
    }
  }

  // A new element comes in.
  lemma PutIn<T(!new)>(a: seq<T>, e: T, b: seq<T>)
    requires Once(a + b) && e !in a + b
    ensures Once(a + [e] + b) && SameOrder(a + b, a + [e] + b)
  {
    var s, t := a + [e] + b, a + b;
    assert multiset(s) == multiset(t) + multiset{e};
    forall x
      ensures multiset(s)[x] <= 1
    {
      assert multiset(t)[x] <= 1;
    }
    forall x, y | Before(t, x, y)
      ensures Before(s, x, y)
    {
      BeforeJoined(a + [e], b, x, y);
      BeforeJoined(a, [e], x, y);
      BeforeJoined(a, b, x, y);
    }
  }

  // Some leave the second part.
  lemma {:induction false} SomeDropped<T(!new)>(drop: T -> bool, a: seq<T>, q: seq<T>)
    requires Once(a + q)
    ensures Once(a + Keep(drop, q)) && SameOrder(a + q, a + Keep(drop, q))
  {
    var k := Keep(drop, q);
    PartitionIsExact(drop, q);
    OncePart(a, q);
    KeepOnlyKept(drop, q);
    forall x
      ensures multiset(a + k)[x] <= 1
    {
      assert multiset(a + q)[x] <= 1;
    }
    forall x, y | Before(a + q, x, y) && x in a + k && y in a + k
      ensures Before(a + k, x, y)
    {
      BeforeJoined(a, q, x, y);
      BeforeJoined(a, k, x, y);
      if Before(q, x, y) {
        BeforeMembers(q, x, y);
        KeepOrder(drop, q, x, y);
      }
    }
  }

  lemma {:induction false} KeepOrder<T(!new)>(drop: T -> bool, q: seq<T>, x: T, y: T)
    requires Before(q, x, y) && !drop(x) && !drop(y)
    ensures Before(Keep(drop, q), x, y)
  {
    if q != [] {
      var t, z := q[..|q| - 1], q[|q| - 1];
      assert q == t + [z];
      KeepSnoc(drop, t, z);
      BeforeJoined(t, [z], x, y);
      assert !Before([z], x, y);
      if Before(t, x, y) {
        KeepOrder(drop, t, x, y);
      } else {
        KeepOnlyKept(drop, t);
      }
      BeforeJoined(Keep(drop, t), if drop(z) then [] else [z], x, y);
    }
  }
}
