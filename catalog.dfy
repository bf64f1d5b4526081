// File discovery, `get_fasta_paths`: the directory entries that match the glob
// `*.fa*` (or `**/*.fa*` when searching recursively), in sorted order.
// The directory listing is an input: the entries below the input directory,
// in whatever order the file system enumerates them.
module Catalog {
  import opened Paths
  import opened PathOrder

  /**
   fnmatch of the pattern `*.fa*` against one name: the leading `*` gives up
   characters one at a time until the literal `.fa` starts, and the trailing
   `*` accepts whatever follows it.
   */
  predicate MatchesFaGlob(name: string)
    ensures MatchesFaGlob(name) ==> |name| >= 3
  {
    if |name| < 3 then false
    else (name[0] == '.' && name[1] == 'f' && name[2] == 'a') || MatchesFaGlob(name[1..])
  }

  /** The regular expression `.*\.fa.*` that fnmatch translates the pattern to. */
  ghost predicate ContainsFa(name: string)
  {
    exists i :: FaAt(name, i)
  }

  /** The literal `.fa` starts at index `i` of the name. */
  ghost predicate FaAt(name: string, i: int)
  {
    0 <= i && i + 3 <= |name| && name[i..i + 3] == ".fa"
  }

  lemma {:induction false} MatchesFaGlobIff(name: string)
    ensures MatchesFaGlob(name) <==> ContainsFa(name)
  {
    if |name| >= 3 {
      var tail := name[1..];
      MatchesFaGlobIff(tail);
      if name[0] == '.' && name[1] == 'f' && name[2] == 'a' {
        assert FaAt(name, 0);
      }
      if ContainsFa(tail) {
        var i :| FaAt(tail, i);
        assert name[i + 1..i + 4] == tail[i..i + 3];
        assert FaAt(name, i + 1);
      }
      if ContainsFa(name) {
        var i :| FaAt(name, i);
        if i == 0 {
          assert name[0] == '.' && name[1] == 'f' && name[2] == 'a';
        } else {
          assert tail[i - 1..i + 2] == name[i..i + 3];
          assert FaAt(tail, i - 1);
        }
      }
    }
  }

  // Whether the glob returns an entry: `*.fa*` looks at direct entries only,
  // `**/*.fa*` at entries at any depth; either way the final component must match.
  predicate Selected(p: Path, recursive: bool)
  {
    p != [] && (recursive || |p| == 1) && MatchesFaGlob(Name(p))
  }

  /** `indir.glob(pattern)`: the matching entries, in enumeration order. */
  function Glob(entries: seq<Path>, recursive: bool): (r: seq<Path>)
    ensures forall p :: p in r <==> p in entries && Selected(p, recursive)
  {
    if entries == [] then []
    else (if Selected(entries[0], recursive) then [entries[0]] else []) + Glob(entries[1..], recursive)
  }

  predicate Sorted(s: seq<Path>)
  {
    forall i, j :: 0 <= i < j < |s| ==> PathLe(s[i], s[j])
  }

  lemma PrependSorted(x: Path, s: seq<Path>)
    requires Sorted(s)
    requires forall z :: z in s ==> PathLe(x, z)
    ensures Sorted([x] + s)
  {
    var r := [x] + s;
    forall i, j | 0 <= i < j < |r| ensures PathLe(r[i], r[j]) {
      if i == 0 {
        assert r[j] in s;
      } else {
        assert r[i] == s[i - 1] && r[j] == s[j - 1];
      }
    }
  }

  /** Inserting into a sorted list keeps it sorted and adds exactly the one element. */
  function Insert(x: Path, s: seq<Path>): (r: seq<Path>)
    requires Sorted(s)
    ensures Sorted(r)
    ensures multiset(r) == multiset(s) + multiset{x}
  {
    if s == [] then [x]
    else if PathLe(x, s[0]) then
      InsertFront(x, s);
      [x] + s
    else
      var t := Insert(x, s[1..]);
      InsertBehind(x, s, t);
      assert s == [s[0]] + s[1..];
      [s[0]] + t
  }

  lemma InsertFront(x: Path, s: seq<Path>)
    requires Sorted(s) && s != [] && PathLe(x, s[0])
    ensures Sorted([x] + s)
  {
    forall z | z in s ensures PathLe(x, z) {
      var j :| 0 <= j < |s| && s[j] == z;
      PathLeTotalOrder(x, s[0], z);
    }
    PrependSorted(x, s);
  }

  lemma InsertBehind(x: Path, s: seq<Path>, t: seq<Path>)
    requires Sorted(s) && s != [] && !PathLe(x, s[0])
    requires Sorted(t) && multiset(t) == multiset(s[1..]) + multiset{x}
    ensures Sorted([s[0]] + t)
  {
    forall z | z in t ensures PathLe(s[0], z) {
      assert z in multiset(t);
      if z == x {
        PathLeTotalOrder(x, s[0], x);
      } else {
        assert z in multiset(s[1..]);
        var j :| 0 <= j < |s[1..]| && s[1..][j] == z;
        assert s[j + 1] == z;
      }
    }
    PrependSorted(s[0], t);
  }

  /** Python's `sorted`: an ascending permutation of its argument. */
  function SortPaths(s: seq<Path>): (r: seq<Path>)
    ensures Sorted(r)
    ensures multiset(r) == multiset(s)
  {
    if s == [] then []
    else
      assert s == [s[0]] + s[1..];
      Insert(s[0], SortPaths(s[1..]))
  }

  /** `get_fasta_paths(indir, recursive)`: the matching entries, sorted ascending. */
  function Discover(entries: seq<Path>, recursive: bool): (r: seq<Path>)
    ensures Sorted(r)
    ensures multiset(r) == multiset(Glob(entries, recursive))
    ensures forall p :: p in r <==> p in entries && Selected(p, recursive)
  {
    var r := SortPaths(Glob(entries, recursive));
    assert forall p :: p in r <==> p in multiset(r);
    r
  }

  /** What discovery returns, stated through the regular expression: with and without recursion. */
  lemma DiscoverSelects(entries: seq<Path>, p: Path)
    ensures p in Discover(entries, false) <==> p in entries && |p| == 1 && ContainsFa(p[0])
    ensures p in Discover(entries, true) <==> p in entries && p != [] && ContainsFa(Name(p))
  {
    MatchesFaGlobIff(Name(p));
  }

  /** How often the glob returns an entry: as often as it is listed, if it matches at all. */
  lemma {:induction false} GlobCount(entries: seq<Path>, recursive: bool, p: Path)
    ensures multiset(Glob(entries, recursive))[p] ==
      if Selected(p, recursive) then multiset(entries)[p] else 0
  {
    if entries != [] {
      GlobCount(entries[1..], recursive, p);
      assert entries == [entries[0]] + entries[1..];
    }
  }

  /** Recursion widens the search: every non-recursive result is also a recursive one. */
  lemma RecursiveWidens(entries: seq<Path>)
    ensures multiset(Discover(entries, false)) <= multiset(Discover(entries, true))
    ensures forall p :: p in Discover(entries, false) ==> p in Discover(entries, true)
  {
    forall p ensures multiset(Glob(entries, false))[p] <= multiset(Glob(entries, true))[p] {
      GlobCount(entries, false, p);
      GlobCount(entries, true, p);
    }
  }

  lemma SortedHeadLeast(s: seq<Path>, z: Path)
    requires Sorted(s) && z in s
    ensures PathLe(s[0], z)
  {
    var j :| 0 <= j < |s| && s[j] == z;
    if j == 0 {
      PathLeTotalOrder(z, z, z);
    }
  }

  lemma SortedTail(s: seq<Path>)
    requires Sorted(s) && s != []
    ensures Sorted(s[1..])
    ensures multiset(s[1..]) == multiset(s) - multiset{s[0]}
  {
    assert s == [s[0]] + s[1..];
  }

  /** A sorted list is determined by its elements. */
  lemma {:induction false} SortedUnique(s: seq<Path>, t: seq<Path>)
    requires Sorted(s) && Sorted(t)
    requires multiset(s) == multiset(t)
    ensures s == t
  {
    if s != [] && t != [] {
      assert s[0] in multiset(t) && t[0] in multiset(s);
      SortedHeadLeast(t, s[0]);
      SortedHeadLeast(s, t[0]);
      PathLeTotalOrder(s[0], t[0], s[0]);
      SortedTail(s);
      SortedTail(t);
      SortedUnique(s[1..], t[1..]);
      assert s == [s[0]] + s[1..] && t == [t[0]] + t[1..];
    } else {
      assert |multiset(t)| == |multiset(s)|;
    }
  }

  /** The result does not depend on the order in which the file system lists the entries. */
  lemma DiscoverOrderIndependent(entries1: seq<Path>, entries2: seq<Path>, recursive: bool)
    requires multiset(entries1) == multiset(entries2)
    ensures Discover(entries1, recursive) == Discover(entries2, recursive)
  {
    forall p ensures multiset(Glob(entries1, recursive))[p] == multiset(Glob(entries2, recursive))[p] {
      GlobCount(entries1, recursive, p);
      GlobCount(entries2, recursive, p);
    }
    assert multiset(Glob(entries1, recursive)) == multiset(Glob(entries2, recursive));
    SortedUnique(Discover(entries1, recursive), Discover(entries2, recursive));
  }
}
