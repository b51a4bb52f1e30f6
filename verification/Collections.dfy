/** Facts about sequences and finite sets that several modules need. */
module Collections {
  predicate Distinct<T(==)>(s: seq<T>) {
    forall i, j :: 0 <= i < j < |s| ==> s[i] != s[j]
  }

  lemma SubsetSize<T>(a: set<T>, b: set<T>)
    requires a <= b
    ensures |a| <= |b| && (|a| == |b| <==> a == b)
  {
    assert b == a + (b - a);
  }

  /** The state after the first `n` of the inputs. */
  function Fold<S, X>(step: (S, X) -> S, start: S, inputs: seq<X>, n: nat): S
    requires n <= |inputs|
  {
    if n == 0 then start else step(Fold(step, start, inputs, n - 1), inputs[n - 1])
  }

  /** What every step keeps, or carries on to the next position, holds at all later ones. */
  lemma {:induction false} FoldKeeps<S, X>(
      step: (S, X) -> S, start: S, inputs: seq<X>, n: nat, m: nat, kept: (nat, S) -> bool)
    requires n <= m <= |inputs| && kept(n, Fold(step, start, inputs, n))
    requires forall i: nat, s :: i < m && kept(i, s) ==> kept(i + 1, step(s, inputs[i]))
    ensures kept(m, Fold(step, start, inputs, m))
  {
    if n < m {
      FoldKeeps(step, start, inputs, n, m - 1, kept);
    }
  }

  lemma {:induction false} FoldOfPrefix<S, X>(step: (S, X) -> S, start: S, inputs: seq<X>, m: nat, n: nat)
    requires n <= m <= |inputs|
    ensures Fold(step, start, inputs[..m], n) == Fold(step, start, inputs, n)
  {
    if n != 0 {
      FoldOfPrefix(step, start, inputs, m, n - 1);
    }
  }
}
