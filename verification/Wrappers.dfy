/** The two result shapes the model uses for Rust's `Option` and `Result`, and small facts about sets. */
module Wrappers {
  datatype Option<+T> = None | Some(value: T)

  datatype Result<+T, +E> = Ok(value: T) | Err(error: E)

  lemma EmptyIfNoMember<T>(s: set<T>)
    requires forall x :: x !in s
    ensures s == {}
  {
  }

  lemma HasMember(s: set<int>)
    requires s != {}
    ensures exists x :: x in s
  {
    if forall x :: x !in s {
      EmptyIfNoMember(s);
      assert false;
    }
  }

  lemma SubsetSize<T>(a: set<T>, b: set<T>)
    requires a <= b
    ensures |a| <= |b|
  {
    assert b == a + (b - a);
  }

  lemma HasLeast(s: set<int>)
    requires s != {}
    ensures exists m :: m in s && forall x | x in s :: m <= x
  {
    HasMember(s);
    var x :| x in s;
    var rest := s - {x};
    if rest == {} {
      assert s == {x};
      assert x in s && forall y | y in s :: x <= y;
    } else {
      HasLeast(rest);
      var m :| m in rest && forall y | y in rest :: m <= y;
      var least := if m < x then m else x;
      forall y | y in s ensures least <= y {
        assert y == x || y in rest;
      }
      assert least in s;
    }
  }

  /** `BTreeSet::first`. */
  function First(s: set<int>): (m: int)
    requires s != {}
    ensures m in s && forall x | x in s :: m <= x
  {
    HasLeast(s);
    var m :| m in s && forall x | x in s :: m <= x;
    m
  }

  ghost function Max(s: set<int>): (m: int)
    requires s != {}
    ensures m in s
    ensures forall x | x in s :: x <= m
  {
    HasMember(s);
    var x :| x in s;
    var rest := s - {x};
    if rest == {} then
      assert s == {x};
      x
    else
      var m := Max(rest);
      assert forall y | y in s :: y == x || y in rest;
      if m < x then x else m
  }

  lemma SliceOfSlice<T>(s: seq<T>, a: nat, b: nat, i: nat, j: nat)
    requires a <= b <= |s| && i <= j <= b - a
    ensures s[a..b][i..j] == s[a + i..a + j]
  {
    forall k | 0 <= k < j - i ensures s[a..b][i..j][k] == s[a + i..a + j][k] {}
  }

  lemma TailOfTail<T>(s: seq<T>, i: nat, n: nat)
    requires i + n <= |s|
    ensures s[i..][n..] == s[i + n..]
  {
    forall k | 0 <= k < |s| - i - n ensures s[i..][n..][k] == s[i + n..][k] {}
  }
}
