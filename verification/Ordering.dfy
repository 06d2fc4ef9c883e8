/** Strings in code point order, as Python's sorted() and SQLite's binary collation compare them. */
module Ordering {

  predicate Precedes(a: string, b: string) {
    if b == [] then false
    else if a == [] then true
    else a[0] < b[0] || (a[0] == b[0] && Precedes(a[1..], b[1..]))
  }

  /** The strings agree up to some place, where the first one ends or has the smaller character. */
  predicate Differ(a: string, b: string, n: nat) {
    && n <= |a| && n < |b| && a[..n] == b[..n]
    && (n == |a| || a[n] < b[n])
  }

  lemma {:induction false} PrecedesExactly(a: string, b: string)
    ensures Precedes(a, b) <==> exists n: nat :: Differ(a, b, n)
  {
    if b == [] || a == [] {
      assert b != [] && a == [] ==> Differ(a, b, 0);
    } else if a[0] == b[0] {
      PrecedesExactly(a[1..], b[1..]);
      if n: nat :| Differ(a[1..], b[1..], n) {
        assert a[..n + 1] == [a[0]] + a[1..][..n] && b[..n + 1] == [b[0]] + b[1..][..n];
        assert Differ(a, b, n + 1);
      }
      if n: nat :| Differ(a, b, n) {
        assert n > 0;
        assert a[1..][..n - 1] == a[..n][1..] && b[1..][..n - 1] == b[..n][1..];
        assert Differ(a[1..], b[1..], n - 1);
      }
    } else {
      assert a[0] < b[0] ==> Differ(a, b, 0);
      if n: nat :| Differ(a, b, n) {
        assert n > 0 ==> a[..n][0] == b[..n][0];
      }
    }
  }

  lemma {:induction false} Irreflexive(a: string)
    ensures !Precedes(a, a)
  {
    if a != [] {
      Irreflexive(a[1..]);
    }
  }

  lemma {:induction false} Total(a: string, b: string)
    ensures a == b || Precedes(a, b) || Precedes(b, a)
  {
    if a == [] || b == [] {
    } else if a[0] == b[0] {
      Total(a[1..], b[1..]);
      assert a == [a[0]] + a[1..] && b == [b[0]] + b[1..];
    }
  }

  lemma {:induction false} Transitive(a: string, b: string, c: string)
    requires Precedes(a, b) && Precedes(b, c)
    ensures Precedes(a, c)
  {
    if a == [] {
    } else if a[0] == b[0] && b[0] == c[0] {
      Transitive(a[1..], b[1..], c[1..]);
    }
  }

  /** Where two joined strings agree and the joiner is in neither first part, both parts agree. */
  lemma {:induction false} SplitAtFirst(x: string, y: string, z: string, w: string, c: char)
    requires c !in x && c !in z && x + [c] + y == z + [c] + w
    ensures x == z && y == w
  {
    var s := x + [c] + y;
    assert s[|x|] == c && forall i | 0 <= i < |x| :: s[i] == x[i] && s[i] != c;
    assert s[|z|] == c && forall i | 0 <= i < |z| :: s[i] == z[i] && s[i] != c;
    assert x == s[..|x|] && z == s[..|z|];
    assert y == s[|x| + 1..] && w == s[|z| + 1..];
  }
}
