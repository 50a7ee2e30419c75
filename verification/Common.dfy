/** Result types shared by the models of the repository's scripts. */
module Common {
  datatype Option<+T> = None | Some(value: T)

  /** A value, or the exception that the source raises instead. */
  datatype Result<+T, +E> = Ok(value: T) | Err(error: E)

  function Max(a: real, b: real): real {
    if a < b then b else a
  }

  function Min(a: real, b: real): real {
    if a < b then a else b
  }

  /** Python's `s[:k]`, for negative `k` too. */
  function SliceTo<T>(s: seq<T>, k: int): seq<T> {
    if k > |s| then s else if k >= 0 then s[..k] else if |s| + k >= 0 then s[..|s| + k] else []
  }

  predicate Distinct<T(==)>(s: seq<T>) {
    forall i, j :: 0 <= i < j < |s| ==> s[i] != s[j]
  }

  /** Code-point order of strings, as Python compares them. */
  predicate LexLe(a: string, b: string) {
    a == [] || (b != [] && (a[0] < b[0] || (a[0] == b[0] && LexLe(a[1..], b[1..]))))
  }

  lemma {:induction false} LexTotal(a: string, b: string)
    ensures LexLe(a, b) || LexLe(b, a)
    ensures LexLe(a, b) && LexLe(b, a) ==> a == b
  {
    if a == [] || b == [] {
    } else {
      LexTotal(a[1..], b[1..]);
      assert a == [a[0]] + a[1..] && b == [b[0]] + b[1..];
    }
  }

  lemma {:induction false} LexTransitive(a: string, b: string, c: string)
    requires LexLe(a, b) && LexLe(b, c)
    ensures LexLe(a, c)
  {
    if a == [] || a[0] != b[0] || b[0] != c[0] {
    } else {
      LexTransitive(a[1..], b[1..], c[1..]);
    }
  }

  /** One more place is looked at, and may belong to the set. */
  lemma OneMorePlace(before: set<nat>, all: set<nat>, n: nat, here: bool)
    requires forall i <- before :: i < n
    requires forall i: nat :: i in all <==> i in before || (i == n && here)
    ensures |all| == |before| + if here then 1 else 0
  {
    assert n !in before;
    assert all == before + if here then {n} else {};
  }
}
