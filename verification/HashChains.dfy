/** What two chains that link each element to the digest of its predecessor have in common. */
module HashChains {
  /** Element `i` names the digest of element `i - 1`, the first one names nothing. */
  predicate LinkAt<T>(h: T -> string, prev: T -> string, chain: seq<T>, i: nat)
    requires i < |chain|
  {
    prev(chain[i]) == if i == 0 then "" else h(chain[i - 1])
  }

  predicate Links<T>(h: T -> string, prev: T -> string, chain: seq<T>) {
    forall i :: 0 <= i < |chain| ==> LinkAt(h, prev, chain, i)
  }

  lemma PrefixLinks<T>(h: T -> string, prev: T -> string, chain: seq<T>, n: nat)
    requires Links(h, prev, chain) && n <= |chain|
    ensures Links(h, prev, chain[..n])
  {
    forall i | 0 <= i < n ensures LinkAt(h, prev, chain[..n], i) {
      assert LinkAt(h, prev, chain, i);
    }
  }

  ghost predicate CollisionFree<T(!new)>(h: T -> string) {
    (forall x, y :: h(x) == h(y) ==> x == y) && forall x :: h(x) != ""
  }

  /** The digest of the last element fixes the length of the chain and every element of it. */
  lemma {:induction false} HeadCommits<T(!new)>(h: T -> string, prev: T -> string, a: seq<T>, b: seq<T>)
    requires CollisionFree(h) && Links(h, prev, a) && Links(h, prev, b)
    requires a != [] && b != [] && h(a[|a| - 1]) == h(b[|b| - 1])
    ensures a == b
    decreases |a|
  {
    var m, n := |a| - 1, |b| - 1;
    assert a[m] == b[n];
    assert a == a[..m] + [a[m]] && b == b[..n] + [b[n]];
    assert LinkAt(h, prev, a, m) && LinkAt(h, prev, b, n);
    if m == 0 || n == 0 {
    } else {
      PrefixLinks(h, prev, a, m);
      PrefixLinks(h, prev, b, n);
      HeadCommits(h, prev, a[..m], b[..n]);
    }
  }
}
