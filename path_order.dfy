/**
 The order `sorted()` puts paths in. Python compares strings character by
 character (by code point, a proper prefix first), and on a POSIX system
 pathlib compares two paths by their lists of components, each component
 as a string.
 */
module PathOrder {
  import opened Paths

  /** Python's `a < b` on `str`. */
  predicate StrLt(a: string, b: string)
    ensures StrLt(a, b) ==> a != b
  {
    if a == [] then b != []
    else if b == [] then false
    else if a[0] != b[0] then a[0] < b[0]
    else StrLt(a[1..], b[1..])
  }

  /** Python's `p < q` on POSIX paths: their component lists compared lexicographically. */
  predicate PathLt(p: Path, q: Path)
    ensures PathLt(p, q) ==> p != q
  {
    if p == [] then q != []
    else if q == [] then false
    else if p[0] != q[0] then StrLt(p[0], q[0])
    else PathLt(p[1..], q[1..])
  }

  predicate PathLe(p: Path, q: Path)
  {
    p == q || PathLt(p, q)
  }

  lemma {:induction false} StrLtIrreflexive(a: string)
    ensures !StrLt(a, a)
  {
    if a != [] {
      StrLtIrreflexive(a[1..]);
    }
  }

  lemma {:induction false} StrLtTransitive(a: string, b: string, c: string)
    requires StrLt(a, b) && StrLt(b, c)
    ensures StrLt(a, c)
  {
    if a != [] && b != [] && c != [] && a[0] == b[0] && b[0] == c[0] {
      StrLtTransitive(a[1..], b[1..], c[1..]);
    }
  }

  lemma {:induction false} StrLtTotal(a: string, b: string)
    ensures a == b || StrLt(a, b) || StrLt(b, a)
  {
    if a != [] && b != [] && a[0] == b[0] {
      StrLtTotal(a[1..], b[1..]);
      if a[1..] == b[1..] {
        assert a == [a[0]] + a[1..] && b == [b[0]] + b[1..];
      }
    }
  }

  lemma {:induction false} StrLtAsymmetric(a: string, b: string)
    requires StrLt(a, b)
    ensures !StrLt(b, a)
  {
    if a != [] && b != [] && a[0] == b[0] {
      StrLtAsymmetric(a[1..], b[1..]);
    }
  }

  lemma {:induction false} PathLtIrreflexive(p: Path)
    ensures !PathLt(p, p)
  {
    if p != [] {
      PathLtIrreflexive(p[1..]);
    }
  }

  lemma {:induction false} PathLtTransitive(p: Path, q: Path, r: Path)
    requires PathLt(p, q) && PathLt(q, r)
    ensures PathLt(p, r)
  {
    if p != [] && q != [] && r != [] {
      if p[0] == q[0] && q[0] == r[0] {
        PathLtTransitive(p[1..], q[1..], r[1..]);
      } else if p[0] == q[0] {
        assert StrLt(q[0], r[0]);
      } else if q[0] == r[0] {
        assert StrLt(p[0], q[0]);
      } else {
        StrLtTransitive(p[0], q[0], r[0]);
      }
    }
  }

  lemma {:induction false} PathLtAsymmetric(p: Path, q: Path)
    requires PathLt(p, q)
    ensures !PathLt(q, p)
  {
    if p != [] && q != [] {
      if p[0] == q[0] {
        PathLtAsymmetric(p[1..], q[1..]);
      } else {
        StrLtAsymmetric(p[0], q[0]);
      }
    }
  }

  lemma {:induction false} PathLtTotal(p: Path, q: Path)
    ensures p == q || PathLt(p, q) || PathLt(q, p)
  {
    if p != [] && q != [] {
      if p[0] == q[0] {
        PathLtTotal(p[1..], q[1..]);
        if p[1..] == q[1..] {
          assert p == [p[0]] + p[1..] && q == [q[0]] + q[1..];
        }
      } else {
        StrLtTotal(p[0], q[0]);
      }
    }
  }

  /** `PathLe` is a total order: reflexive, antisymmetric, transitive and total. */
  lemma PathLeTotalOrder(p: Path, q: Path, r: Path)
    ensures PathLe(p, p)
    ensures PathLe(p, q) && PathLe(q, p) ==> p == q
    ensures PathLe(p, q) && PathLe(q, r) ==> PathLe(p, r)
    ensures PathLe(p, q) || PathLe(q, p)
  {
    PathLtTotal(p, q);
    if PathLt(p, q) {
      PathLtAsymmetric(p, q);
      if PathLt(q, r) {
        PathLtTransitive(p, q, r);
      }
    }
  }

  /** Paths are ordered by components, not by their joined text: `a/x` sorts before `a-b/x`. */
  lemma ComponentOrderExample()
    ensures PathLt(["a", "x"], ["a-b", "x"])
    ensures StrLt("a-b/x", "a/x")
  {
    assert StrLt("", "-b");
    assert StrLt("-b/x", "/x");
  }
}
