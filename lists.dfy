/** The list primitives the board handlers are built from: the two uses of
    `Array.prototype.splice` (remove one entry, insert one entry) and
    `Array.prototype.filter` with an inequality test. */
module Lists {

  /** No value occurs twice in `s`. */
  ghost predicate NoDups<T>(s: seq<T>) {
    forall i, j :: 0 <= i < j < |s| ==> s[i] != s[j]
  }

  /** `splice(i, 1)`: the list without its entry at index `i`. */
  function RemoveAt<T>(s: seq<T>, i: nat): (r: seq<T>)
    requires i < |s|
    ensures |r| == |s| - 1
    ensures forall j :: 0 <= j < i ==> r[j] == s[j]
    ensures forall j :: i <= j < |r| ==> r[j] == s[j + 1]
    ensures multiset(r) == multiset(s) - multiset{s[i]}
  {
    assert s == s[..i] + [s[i]] + s[i + 1..];
    s[..i] + s[i + 1..]
  }

  /** `splice(i, 0, x)`: the list with `x` inserted so that it sits at index `i`. */
  function InsertAt<T>(s: seq<T>, i: nat, x: T): (r: seq<T>)
    requires i <= |s|
    ensures |r| == |s| + 1
    ensures r[i] == x
    ensures forall j :: 0 <= j < i ==> r[j] == s[j]
    ensures forall j :: i < j < |r| ==> r[j] == s[j - 1]
    ensures multiset(r) == multiset(s) + multiset{x}
  {
    assert s == s[..i] + s[i..];
    s[..i] + [x] + s[i..]
  }

  /** Remove the entry at `from`, then insert `x` at `to` in the shortened list. */
  function Move<T>(s: seq<T>, from: nat, to: nat, x: T): (r: seq<T>)
    requires from < |s| && to < |s|
    ensures |r| == |s| && r[to] == x
  {
    InsertAt(RemoveAt(s, from), to, x)
  }

  /** `filter((y) => y !== x)`: every occurrence of `x` dropped, the rest in order. */
  function Filter<T(==,!new)>(s: seq<T>, x: T): (r: seq<T>)
    ensures forall y :: y in r <==> y in s && y != x
    ensures multiset(r) == multiset(s)[x := 0]
    ensures x !in s ==> r == s
  {
    if s == [] then []
    else
      assert s == [s[0]] + s[1..];
      (if s[0] == x then [] else [s[0]]) + Filter(s[1..], x)
  }

  /** Filtering a concatenation filters each part and keeps them in order;
      with `FilterSingleton` this fixes the result entry by entry, so the
      surviving entries keep their original order. */
  lemma {:induction false} FilterAppend<T(!new)>(s1: seq<T>, s2: seq<T>, x: T)
    ensures Filter(s1 + s2, x) == Filter(s1, x) + Filter(s2, x)
  {
    if s1 == [] {
      assert s1 + s2 == s2;
    } else {
      assert (s1 + s2)[1..] == s1[1..] + s2;
      FilterAppend(s1[1..], s2, x);
    }
  }

  /** A one-entry list keeps its entry exactly when it differs from `x`. */
  lemma FilterSingleton<T(!new)>(y: T, x: T)
    ensures Filter([y], x) == (if y == x then [] else [y])
  {
  }

  /** A list with no repeated entry has at most one occurrence of each value. */
  lemma {:induction false} NoDupsCount<T>(s: seq<T>, x: T)
    requires NoDups(s)
    ensures multiset(s)[x] <= 1
  {
    if s != [] {
      assert s == [s[0]] + s[1..];
      assert NoDups(s[1..]) by {
        forall i, j | 0 <= i < j < |s[1..]| ensures s[1..][i] != s[1..][j] {
          assert s[1..][i] == s[i + 1] && s[1..][j] == s[j + 1];
        }
      }
      NoDupsCount(s[1..], x);
      if s[0] == x {
        assert x !in s[1..] by {
          forall j | 0 <= j < |s[1..]| ensures s[1..][j] != x {
            assert s[1..][j] == s[j + 1];
          }
        }
      }
    }
  }

  /** Two equal entries at distinct indices count twice in the multiset. */
  lemma RepeatCounts<T>(s: seq<T>, i: nat, j: nat)
    requires i < j < |s|
    ensures s[i] == s[j] ==> multiset(s)[s[j]] >= 2
  {
    assert s == s[..j] + [s[j]] + s[j + 1..];
    assert s[i] == s[..j][i];
  }

  /** A list in which every value occurs at most once has no repeated entry. */
  lemma CountNoDups<T>(s: seq<T>)
    requires forall x :: multiset(s)[x] <= 1
    ensures NoDups(s)
  {
    forall i, j | 0 <= i < j < |s| ensures s[i] != s[j] {
      RepeatCounts(s, i, j);
    }
  }

  /** Rearranging the entries of a list keeps it free of repetitions. */
  lemma PermutationNoDups<T>(s: seq<T>, t: seq<T>)
    requires NoDups(s) && multiset(t) == multiset(s)
    ensures NoDups(t)
  {
    forall x ensures multiset(t)[x] <= 1 {
      NoDupsCount(s, x);
    }
    CountNoDups(t);
  }

  /** Moving the entry that sits at `from` permutes the list and keeps it free
      of repetitions. */
  lemma MovePermutes<T>(s: seq<T>, from: nat, to: nat)
    requires from < |s| && to < |s|
    ensures multiset(Move(s, from, to, s[from])) == multiset(s)
    ensures NoDups(s) ==> NoDups(Move(s, from, to, s[from]))
    ensures forall y :: y in Move(s, from, to, s[from]) <==> y in s
  {
    var r := Move(s, from, to, s[from]);
    calc {
      multiset(r);
      multiset(RemoveAt(s, from)) + multiset{s[from]};
      multiset(s) - multiset{s[from]} + multiset{s[from]};
      { assert s[from] in multiset(s); }
      multiset(s);
    }
    if NoDups(s) {
      PermutationNoDups(s, r);
    }
    forall y ensures y in r <==> y in s {
      assert y in r <==> y in multiset(r);
      assert y in s <==> y in multiset(s);
    }
  }

  /** Moving the entry at `i` back to index `i` gives the original list. */
  lemma MoveSameIndex<T>(s: seq<T>, i: nat)
    requires i < |s|
    ensures Move(s, i, i, s[i]) == s
  {
    var r := Move(s, i, i, s[i]);
    forall k | 0 <= k < |s| ensures r[k] == s[k] {
      if k > i {
        assert r[k] == RemoveAt(s, i)[k - 1];
      }
    }
  }

  /** Filtering keeps a list free of repetitions. */
  lemma FilterNoDups<T(!new)>(s: seq<T>, x: T)
    requires NoDups(s)
    ensures NoDups(Filter(s, x))
  {
    forall y ensures multiset(Filter(s, x))[y] <= 1 {
      NoDupsCount(s, y);
    }
    CountNoDups(Filter(s, x));
  }

  /** Removing one entry keeps a list free of repetitions, and the removed
      value no longer occurs. */
  lemma RemoveAtNoDups<T>(s: seq<T>, i: nat)
    requires i < |s| && NoDups(s)
    ensures NoDups(RemoveAt(s, i))
    ensures forall y :: y in RemoveAt(s, i) <==> y in s && y != s[i]
  {
    NoDupsCount(s, s[i]);
    forall y ensures multiset(RemoveAt(s, i))[y] <= 1 {
      NoDupsCount(s, y);
    }
    CountNoDups(RemoveAt(s, i));
  }

  /** Inserting a value that is absent keeps a list free of repetitions. */
  lemma InsertAtNoDups<T>(s: seq<T>, i: nat, x: T)
    requires i <= |s| && NoDups(s) && x !in s
    ensures NoDups(InsertAt(s, i, x))
    ensures forall y :: y in InsertAt(s, i, x) <==> y in s || y == x
  {
    forall y ensures multiset(InsertAt(s, i, x))[y] <= 1 {
      NoDupsCount(s, y);
    }
    CountNoDups(InsertAt(s, i, x));
  }

  /** Appending a value that is absent keeps a list free of repetitions. */
  lemma AppendNoDups<T>(s: seq<T>, x: T)
    requires NoDups(s) && x !in s
    ensures NoDups(s + [x])
  {
    assert s + [x] == InsertAt(s, |s|, x);
    InsertAtNoDups(s, |s|, x);
  }
}
