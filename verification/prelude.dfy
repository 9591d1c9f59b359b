/** The two result shapes every module below shares. */
module Prelude {

  /** A value that may be missing: a nil value, an absent row, a failed parse. */
  datatype Option<+T> = None | Some(value: T)

  /** A call that returns either a value or an error, as Go's `(T, error)` pairs do. */
  datatype Result<+T, +E> = Ok(value: T) | Err(error: E)

  /** A set of integers that is not empty has a member to pick. */
  lemma SomeMember(s: set<int>)
    ensures s != {} ==> exists x :: x in s
  {
    if forall x :: x !in s {
      assert s == {};
    }
  }

  lemma Associate<T>(a: seq<T>, b: seq<T>, c: seq<T>)
    ensures (a + b) + c == a + (b + c)
  {
  }

  lemma Uncons<T>(s: seq<T>, i: nat)
    requires i < |s|
    ensures s[i..] == [s[i]] + s[i + 1..]
  {
  }

  lemma ConsConcat<T>(a: seq<T>, b: seq<T>)
    requires a != []
    ensures a == [a[0]] + a[1..] && a + b == [a[0]] + (a[1..] + b)
  {
  }

  lemma Cut<T>(s: seq<T>, i: nat)
    requires i <= |s|
    ensures s[..i] + s[i..] == s
  {
  }

  lemma UpTo<T>(start: seq<T>, s: seq<T>, i: nat)
    requires i < |s|
    ensures start + s[..i + 1] == (start + s[..i]) + [s[i]]
  {
  }

  lemma SliceAt<T>(s: seq<T>, i: nat, j: nat, k: nat)
    requires i <= k < j <= |s|
    ensures s[i..j][k - i] == s[k]
  {
  }

  /** Sequences with the same beginning have the same slices in it. */
  lemma SameSlice<T>(a: seq<T>, b: seq<T>, m: nat, i: nat, j: nat)
    requires i <= j <= m <= |a| && m <= |b| && a[..m] == b[..m]
    ensures a[i..j] == b[i..j]
  {
    assert a[i..j] == a[..m][i..j] && b[i..j] == b[..m][i..j];
  }

  lemma SameElement<T>(a: seq<T>, b: seq<T>, m: nat, i: nat)
    requires i < m <= |a| && m <= |b| && a[..m] == b[..m]
    ensures a[i] == b[i]
  {
    assert a[i] == a[..m][i] && b[i] == b[..m][i];
  }

  lemma SameBeginning<T>(start: seq<T>, x: seq<T>, y: seq<T>, n: nat)
    requires n <= |x| && n <= |y| && x[..n] == y[..n]
    ensures (start + x)[..|start| + n] == (start + y)[..|start| + n]
  {
    assert (start + x)[..|start| + n] == start + x[..n];
    assert (start + y)[..|start| + n] == start + y[..n];
  }
}
