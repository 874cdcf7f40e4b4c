/**
 * The verification scan shared by every host program: device results are
 * compared with the host reference in index order, and the scan stops at
 * the first index where they differ.
 */
module Compare {
  import opened Wrappers

  /** The least index below n at which x and y differ, if there is one. */
  function FirstMismatch(x: seq<int>, y: seq<int>, n: nat): (r: Option<nat>)
    requires n <= |x| && n <= |y|
    ensures r.Some? ==> r.value < n && x[r.value] != y[r.value]
    ensures r.Some? ==> forall i :: 0 <= i < r.value ==> x[i] == y[i]
    ensures r.None? <==> forall i :: 0 <= i < n ==> x[i] == y[i]
  {
    if n == 0 then None
    else match FirstMismatch(x, y, n - 1)
      case Some(i) => Some(i)
      case None => if x[n - 1] != y[n - 1] then Some(n - 1) else None
  }

  /** The first mismatch depends only on the first n cells of each side. */
  lemma {:induction false} FirstMismatchPrefix(x: seq<int>, y: seq<int>, x': seq<int>, y': seq<int>, n: nat)
    requires n <= |x| && n <= |y| && n <= |x'| && n <= |y'|
    requires x[..n] == x'[..n] && y[..n] == y'[..n]
    ensures FirstMismatch(x, y, n) == FirstMismatch(x', y', n)
  {
    if n > 0 {
      assert x[..n - 1] == x'[..n - 1] && y[..n - 1] == y'[..n - 1] by {
        assert x[..n - 1] == x[..n][..n - 1];
        assert x'[..n - 1] == x'[..n][..n - 1];
        assert y[..n - 1] == y[..n][..n - 1];
        assert y'[..n - 1] == y'[..n][..n - 1];
      }
      FirstMismatchPrefix(x, y, x', y', n - 1);
      assert x[n - 1] == x[..n][n - 1] && x'[n - 1] == x'[..n][n - 1];
      assert y[n - 1] == y[..n][n - 1] && y'[n - 1] == y'[..n][n - 1];
    }
  }

  /** A mismatch at i with equality everywhere before it is the first mismatch. */
  lemma FirstMismatchIsLeast(x: seq<int>, y: seq<int>, n: nat, i: nat)
    requires n <= |x| && n <= |y| && i < n
    requires x[i] != y[i] && forall j :: 0 <= j < i ==> x[j] == y[j]
    ensures FirstMismatch(x, y, n) == Some(i)
  {
  }
}
