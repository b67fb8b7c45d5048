/** Going through a list in which some entries belong to a group, from one group to the next. */
module ConfigSections {
  import opened Common

  /** The first entry from i on that belongs to another group than the last. */
  function NextOther<T(==)>(xs: seq<Option<T>>, i: nat, last: T): (n: nat)
    requires i <= |xs|
    ensures i <= n <= |xs|
    decreases |xs| - i
  {
    if i == |xs| || (xs[i].Some? && xs[i].value != last) then i else NextOther(xs, i + 1, last)
  }

  /** The groups met from i on. */
  function Listed<T(==)>(xs: seq<Option<T>>, i: nat, last: T): (r: seq<T>)
    requires i <= |xs|
    decreases |xs| - i
  {
    var n := NextOther(xs, i, last);
    if n == |xs| || xs[n].None? then [] else [xs[n].value] + Listed(xs, n + 1, xs[n].value)
  }

  /** An entry from i on belongs to the group. */
  predicate Occurs<T(==)>(xs: seq<Option<T>>, i: nat, x: T)
    requires i <= |xs|
    decreases |xs| - i
  {
    i < |xs| && (xs[i] == Some(x) || Occurs(xs, i + 1, x))
  }

  /** Entries of one group are next to one another. */
  predicate Contiguous<T(==)>(xs: seq<Option<T>>)
  {
    forall i, j, k :: 0 <= i < j < k < |xs| ==> Between(xs, i, j, k)
  }

  predicate Between<T(==)>(xs: seq<Option<T>>, i: nat, j: nat, k: nat)
    requires i < j < k < |xs|
  {
    xs[i].Some? && xs[i] == xs[k] ==> xs[j] == xs[i]
  }

  lemma {:induction false} NextOtherIs<T>(xs: seq<Option<T>>, i: nat, last: T)
    requires i <= |xs|
    ensures var n := NextOther(xs, i, last);
      && (n < |xs| ==> xs[n].Some? && xs[n].value != last)
      && forall j :: i <= j < n ==> xs[j].None? || xs[j].value == last
    decreases |xs| - i
  {
    if i < |xs| && !(xs[i].Some? && xs[i].value != last) {
      NextOtherIs(xs, i + 1, last);
    }
  }

  /** Which other groups occur: the next, and those behind it. */
  lemma {:induction false} OccursSplit<T>(xs: seq<Option<T>>, i: nat, last: T, x: T)
    requires i <= |xs| && x != last
    ensures var n := NextOther(xs, i, last);
      Occurs(xs, i, x) <==> n < |xs| && (xs[n] == Some(x) || Occurs(xs, n + 1, x))
    decreases |xs| - i
  {
    if i < |xs| && !(xs[i].Some? && xs[i].value != last) {
      OccursSplit(xs, i + 1, last, x);
    }
  }

  lemma {:induction false} WhereOccurs<T>(xs: seq<Option<T>>, i: nat, x: T) returns (k: nat)
    requires i <= |xs| && Occurs(xs, i, x)
    ensures i <= k < |xs| && xs[k] == Some(x)
    decreases |xs| - i
  {
    if xs[i] == Some(x) {
      k := i;
    } else {
      k := WhereOccurs(xs, i + 1, x);
    }
  }

  /** A group that ended does not come again. */
  lemma {:induction false} NotAgain<T>(xs: seq<Option<T>>, i: nat, n: nat, j: nat)
    requires Contiguous(xs) && i < n < j <= |xs| && xs[i].Some? && xs[n] != xs[i]
    ensures !Occurs(xs, j, xs[i].value)
    decreases |xs| - j
  {
    if j < |xs| {
      assert Between(xs, i, n, j);
      NotAgain(xs, i, n, j + 1);
    }
  }

  /** From an entry of a group on, the groups that follow are listed, and the one in force is not. */
  lemma {:induction false} ListedFrom<T>(xs: seq<Option<T>>, i: nat, x: T)
    requires Contiguous(xs) && 0 < i <= |xs| && xs[i - 1].Some?
    ensures x in Listed(xs, i, xs[i - 1].value) <==> x != xs[i - 1].value && Occurs(xs, i, x)
    decreases |xs| - i
  {
    var last := xs[i - 1].value;
    var n := NextOther(xs, i, last);
    NextOtherIs(xs, i, last);
    if n < |xs| {
      ListedFrom(xs, n + 1, x);
      NotAgain(xs, i - 1, n, n + 1);
    }
    if x != last {
      OccursSplit(xs, i, last, x);
    }
  }

  predicate NoRepeats<T(==)>(s: seq<T>)
  {
    forall i, j :: 0 <= i < j < |s| ==> s[i] != s[j]
  }

  lemma {:induction false} NoneTwice<T>(xs: seq<Option<T>>, i: nat, last: T)
    requires Contiguous(xs) && i <= |xs|
    ensures NoRepeats(Listed(xs, i, last))
    decreases |xs| - i
  {
    var n := NextOther(xs, i, last);
    NextOtherIs(xs, i, last);
    if n < |xs| {
      var x := xs[n].value;
      NoneTwice(xs, n + 1, x);
      ListedFrom(xs, n + 1, x);
      assert x !in Listed(xs, n + 1, x);
    }
  }

  /** All entries of one group come before all of the other. */
  ghost predicate Before<T(!new)>(xs: seq<Option<T>>, x: T, y: T)
  {
    forall p, q :: 0 <= p < |xs| && 0 <= q < |xs| && xs[p] == Some(x) && xs[q] == Some(y) ==> p < q
  }

  lemma SameGroup<T>(xs: seq<Option<T>>, i: nat, j: nat, k: nat)
    requires Contiguous(xs) && i < j < k < |xs| && xs[i].Some? && xs[i] == xs[k]
    ensures xs[j] == xs[i]
  {
    assert Between(xs, i, j, k);
  }

  lemma GroupBefore<T(!new)>(xs: seq<Option<T>>, n: nat, k: nat)
    requires Contiguous(xs) && n < k < |xs| && xs[n].Some? && xs[k].Some? && xs[n] != xs[k]
    ensures Before(xs, xs[n].value, xs[k].value)
  {
    forall p, q | 0 <= p < |xs| && 0 <= q < |xs| && xs[p] == xs[n] && xs[q] == xs[k]
      ensures p < q
    {
      if q < n {
        SameGroup(xs, q, n, k);
        assert false;
      } else if q < p {
        SameGroup(xs, n, q, p);
        assert false;
      }
    }
  }

  ghost predicate InOrder<T(!new)>(xs: seq<Option<T>>, s: seq<T>)
  {
    forall i, j :: 0 <= i < j < |s| ==> Before(xs, s[i], s[j])
  }

  lemma {:induction false} ListedInOrder<T(!new)>(xs: seq<Option<T>>, i: nat, last: T)
    requires Contiguous(xs) && i <= |xs|
    ensures InOrder(xs, Listed(xs, i, last))
    decreases |xs| - i
  {
    var n := NextOther(xs, i, last);
    NextOtherIs(xs, i, last);
    if n < |xs| {
      var x := xs[n].value;
      var tail := Listed(xs, n + 1, x);
      ListedInOrder(xs, n + 1, x);
      forall y | y in tail
        ensures Before(xs, x, y)
      {
        ListedFrom(xs, n + 1, y);
        var k := WhereOccurs(xs, n + 1, y);
        GroupBefore(xs, n, k);
      }
    }
  }

  /**
   Every group is listed once, in order. The one that stands for none is listed too, but not if it comes
   first: only if it occurs behind an entry of another group.
   */
  lemma ListedOnce<T(!new)>(xs: seq<Option<T>>, nothing: T, x: T)
    requires Contiguous(xs)
    ensures NoRepeats(Listed(xs, 0, nothing)) && InOrder(xs, Listed(xs, 0, nothing))
    ensures x != nothing ==> (x in Listed(xs, 0, nothing) <==> Occurs(xs, 0, x))
    ensures var n := NextOther(xs, 0, nothing);
      nothing in Listed(xs, 0, nothing) <==> n < |xs| && Occurs(xs, n + 1, nothing)
  {
    NoneTwice(xs, 0, nothing);
    ListedInOrder(xs, 0, nothing);
    var n := NextOther(xs, 0, nothing);
    NextOtherIs(xs, 0, nothing);
    FirstListed(xs, nothing, nothing);
    FirstListed(xs, nothing, x);
    if x != nothing {
      OccursSplit(xs, 0, nothing, x);
    }
  }

  lemma FirstListed<T>(xs: seq<Option<T>>, nothing: T, x: T)
    requires Contiguous(xs)
    ensures var n := NextOther(xs, 0, nothing);
      x in Listed(xs, 0, nothing) <==> n < |xs| && (xs[n] == Some(x) || Occurs(xs, n + 1, x))
  {
    var n := NextOther(xs, 0, nothing);
    NextOtherIs(xs, 0, nothing);
    if n < |xs| {
      ListedFrom(xs, n + 1, x);
    }
  }

  /** What a caller gets who asks for what comes next, from i on, until there is no more. */
  function Chain<T>(next: nat -> Option<(nat, T)>, size: nat, i: nat): (r: seq<T>)
    requires i <= size
    decreases size - i
  {
    match next(i)
    case None => []
    case Some(p) => if i < p.0 <= size then [p.1] + Chain(next, size, p.0) else []
  }

  /** At i the search finds the next group other than the one remembered there. */
  ghost predicate Finds<T(!new)>(next: nat -> Option<(nat, T)>, remembered: nat -> T, xs: seq<Option<T>>, i: nat)
    requires i <= |xs|
  {
    var n := NextOther(xs, i, remembered(i));
    next(i) == if n < |xs| && xs[n].Some? then Some((n + 1, xs[n].value)) else None
  }

  /** Behind an entry of a group that group is remembered. */
  ghost predicate Remembers<T(!new)>(remembered: nat -> T, xs: seq<Option<T>>, i: nat)
    requires i < |xs|
  {
    xs[i].Some? ==> remembered(i + 1) == xs[i].value
  }

  lemma {:induction false} ChainIsListed<T(!new)>(next: nat -> Option<(nat, T)>, remembered: nat -> T, xs: seq<Option<T>>, i: nat)
    requires i <= |xs|
    requires forall j :: 0 <= j <= |xs| ==> Finds(next, remembered, xs, j)
    requires forall j :: 0 <= j < |xs| ==> Remembers(remembered, xs, j)
    ensures Chain(next, |xs|, i) == Listed(xs, i, remembered(i))
    decreases |xs| - i
  {
    assert Finds(next, remembered, xs, i);
    var n := NextOther(xs, i, remembered(i));
    if n < |xs| && xs[n].Some? {
      assert Remembers(remembered, xs, n);
      ChainIsListed(next, remembered, xs, n + 1);
    }
  }
}
