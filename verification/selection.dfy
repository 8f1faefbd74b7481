/**
 The course selection of the fee-quote screen: a list of course ids that
 starts empty and changes only by toggling one id at a time. Toggling an id
 that is present drops every occurrence of it (`filter`); toggling an id
 that is absent appends it at the end.
 */
module Selection {

  /** The ids occurring in `s`, forgetting order and repetition. */
  function Ids(s: seq<int>): set<int>
  {
    set y | y in s
  }

  /** No id occurs twice in `s`. */
  predicate NoDup(s: seq<int>)
  {
    forall i, j :: 0 <= i < j < |s| ==> s[i] != s[j]
  }

  /** `t` is `s` with some elements deleted and the rest kept in order. */
  predicate Subsequence(t: seq<int>, s: seq<int>)
    decreases |s|
  {
    if |t| == 0 then true
    else if |s| == 0 then false
    else if t[0] == s[0] then Subsequence(t[1..], s[1..])
    else Subsequence(t, s[1..])
  }

  /** `s` with every occurrence of `x` dropped, the rest in their original order. */
  function Remove(s: seq<int>, x: int): (r: seq<int>)
    ensures x !in r
    ensures forall y :: y != x ==> (y in r <==> y in s)
    ensures multiset(r) == multiset(s)[x := 0]
  {
    if |s| == 0 then []
    else
      assert s == [s[0]] + s[1..];
      (if s[0] == x then [] else [s[0]]) + Remove(s[1..], x)
  }

  /** Removing keeps the surviving ids in their original relative order. */
  lemma {:induction false} RemoveKeepsOrder(s: seq<int>, x: int)
    ensures Subsequence(Remove(s, x), s)
    decreases |s|
  {
    if |s| > 0 {
      RemoveKeepsOrder(s[1..], x);
      if s[0] != x {
        var r := Remove(s, x);
        assert r[0] == s[0] && r[1..] == Remove(s[1..], x);
      } else {
        assert Remove(s, x) == Remove(s[1..], x);
      }
    }
  }

  /** Removing an id that does not occur changes nothing. */
  lemma {:induction false} RemoveAbsent(s: seq<int>, x: int)
    requires x !in s
    ensures Remove(s, x) == s
    decreases |s|
  {
    if |s| > 0 {
      assert x !in s[1..];
      RemoveAbsent(s[1..], x);
      assert s == [s[0]] + s[1..];
    }
  }

  /** Removing distributes over concatenation. */
  lemma {:induction false} RemoveAppend(a: seq<int>, b: seq<int>, x: int)
    ensures Remove(a + b, x) == Remove(a, x) + Remove(b, x)
    decreases |a|
  {
    if |a| == 0 {
      assert a + b == b;
    } else {
      assert (a + b)[1..] == a[1..] + b;
      RemoveAppend(a[1..], b, x);
    }
  }

  /** Dropping an id from a duplicate-free list keeps it duplicate-free and shortens it by one when the id was there. */
  lemma {:induction false} RemoveNoDup(s: seq<int>, x: int)
    requires NoDup(s)
    ensures NoDup(Remove(s, x))
    ensures x in s ==> |Remove(s, x)| == |s| - 1
    decreases |s|
  {
    if |s| > 0 {
      var tail := s[1..];
      assert NoDup(tail);
      assert s[0] !in tail;
      RemoveNoDup(tail, x);
      if s[0] == x {
        RemoveAbsent(tail, x);
      }
    }
  }

  /** The list after the user taps course `x`. */
  function Toggle(s: seq<int>, x: int): (r: seq<int>)
    // membership of x flips, membership of every other id is unchanged
    ensures x in r <==> x !in s
    ensures forall y :: y != x ==> (y in r <==> y in s)
    // an absent id lands at the end, behind the untouched old list
    ensures x !in s ==> |r| == |s| + 1 && r[..|s|] == s && r[|s|] == x
    // a present id disappears entirely; nothing else is lost or gained
    ensures x in s ==> multiset(r) == multiset(s)[x := 0] && Subsequence(r, s)
    ensures NoDup(s) ==> NoDup(r)
    ensures NoDup(s) && x in s ==> |r| == |s| - 1
  {
    if x in s then
      RemoveKeepsOrder(s, x);
      if NoDup(s) then
        RemoveNoDup(s, x);
        Remove(s, x)
      else
        Remove(s, x)
    else
      s + [x]
  }

  /**
   Tapping the same course twice restores the set of selected ids. When the
   id was absent the list itself comes back; when it was present, every
   occurrence is dropped and a single copy comes back at the end instead.
   */
  lemma ToggleTwice(s: seq<int>, x: int)
    ensures Ids(Toggle(Toggle(s, x), x)) == Ids(s)
    ensures x !in s ==> Toggle(Toggle(s, x), x) == s
    ensures x in s ==> Toggle(Toggle(s, x), x) == Remove(s, x) + [x]
  {
    var t := Toggle(s, x);
    var u := Toggle(t, x);
    if x in s {
      assert t == Remove(s, x);
      assert x !in t;
      assert u == t + [x];
    } else {
      assert t == s + [x];
      assert u == Remove(s + [x], x);
      RemoveAppend(s, [x], x);
      RemoveAbsent(s, x);
      assert Remove([x], x) == [];
      assert u == s + [];
      assert s + [] == s;
    }
    forall y
      ensures y in Ids(u) <==> y in Ids(s)
    {
      assert y in Ids(u) <==> y in u;
      assert y in Ids(s) <==> y in s;
    }
  }

  /** The selection after the user taps the ids of `taps` in order, from the empty list. */
  function Run(taps: seq<int>): (r: seq<int>)
    ensures NoDup(r)
  {
    if |taps| == 0 then []
    else Toggle(Run(taps[..|taps| - 1]), taps[|taps| - 1])
  }

  /** An id is selected exactly when it was tapped an odd number of times. */
  lemma {:induction false} RunParity(taps: seq<int>, y: int)
    ensures y in Run(taps) <==> multiset(taps)[y] % 2 == 1
    decreases |taps|
  {
    if |taps| > 0 {
      var init := taps[..|taps| - 1];
      var last := taps[|taps| - 1];
      assert taps == init + [last];
      var before := Run(init);
      assert Run(taps) == Toggle(before, last);
      RunParity(init, y);
      var k := multiset(init)[y];
      if y == last {
        assert multiset(taps)[y] == k + 1;
        ParityStep(k);
      } else {
        assert multiset(taps)[y] == k;
      }
    }
  }

  lemma ParityStep(k: int)
    ensures (k + 1) % 2 == 1 <==> k % 2 != 1
  {
  }

  /** A reachable selection has as many entries as distinct ids. */
  lemma {:induction false} NoDupCard(s: seq<int>)
    requires NoDup(s)
    ensures |Ids(s)| == |s|
    decreases |s|
  {
    if |s| > 0 {
      var t := s[..|s| - 1];
      var last := s[|s| - 1];
      assert s == t + [last];
      assert NoDup(t);
      NoDupCard(t);
      assert last !in t;
      assert Ids(s) == Ids(t) + {last};
    }
  }
}
