/**
 The parts of pathlib that the script relies on: a path below the input
 directory, its final component (`name`), its last suffix and its `stem`,
 and the name of the tensor file written for it.
 */
module Paths {

  /** A path relative to the input directory, as its list of components. */
  type Path = seq<string>

  /** pathlib's `name`: the final component ("" for the empty path). */
  function Name(p: Path): (name: string)
  {
    if p == [] then "" else p[|p| - 1]
  }

  /** Python's `str.rfind('.')`: the index of the last dot, or -1. */
  function LastDot(s: string): (r: int)
    ensures -1 <= r < |s|
    ensures r >= 0 ==> s[r] == '.'
    ensures forall k :: r < k < |s| ==> s[k] != '.'
  {
    if s == [] then -1
    else if s[|s| - 1] == '.' then |s| - 1
    else LastDot(s[..|s| - 1])
  }

  /** pathlib's rule for a real suffix: a dot that is neither the first nor the last character. */
  predicate HasSuffix(name: string)
  {
    0 < LastDot(name) < |name| - 1
  }

  /** pathlib's `suffix`: the last suffix including its dot, or "". */
  function Suffix(name: string): (suffix: string)
  {
    if HasSuffix(name) then name[LastDot(name)..] else ""
  }

  /** pathlib's `stem`: the name without its last suffix. */
  function Stem(name: string): (stem: string)
  {
    if HasSuffix(name) then name[..LastDot(name)] else name
  }

  /** The file name the script writes for an input: `f"{path.stem}.pt"`. */
  function ArtifactName(p: Path): (file: string)
  {
    Stem(Name(p)) + ".pt"
  }

  /** The stem and the suffix put back together give the name. */
  lemma StemSuffix(name: string)
    ensures Stem(name) + Suffix(name) == name
  {
  }

  /** A suffix is empty, or a dot followed by at least one character none of which is a dot. */
  lemma SuffixShape(name: string)
    ensures var x := Suffix(name);
      x == "" || (|x| >= 2 && x[0] == '.' && forall k :: 1 <= k < |x| ==> x[k] != '.')
  {
    if HasSuffix(name) {
      var i := LastDot(name);
      var x := name[i..];
      forall k | 1 <= k < |x| ensures x[k] != '.' {
        assert x[k] == name[i + k];
      }
    }
  }

  /** Only the last suffix is removed: the stem of `base.ext` is `base`, whatever dots `base` holds. */
  lemma StemDropsLastSuffix(base: string, ext: string)
    requires base != "" && ext != ""
    requires forall k :: 0 <= k < |ext| ==> ext[k] != '.'
    ensures Stem(base + "." + ext) == base
    ensures Suffix(base + "." + ext) == "." + ext
  {
    var name := base + "." + ext;
    LastDotAfter(base + ".", ext);
    assert LastDot(name) == |base|;
  }

  /** Appending dot-free text does not move the last dot of a string that ends in a dot. */
  lemma {:induction false} LastDotAfter(s: string, ext: string)
    requires s != [] && s[|s| - 1] == '.'
    requires forall k :: 0 <= k < |ext| ==> ext[k] != '.'
    ensures LastDot(s + ext) == |s| - 1
  {
    if ext == [] {
      assert s + ext == s;
    } else {
      var t := s + ext;
      assert t[..|t| - 1] == s + ext[..|ext| - 1];
      assert t[|t| - 1] == ext[|ext| - 1];
      LastDotAfter(s, ext[..|ext| - 1]);
    }
  }

  /**
   The stem is shorter than the name exactly when the name does not end in a dot and some
   dot stands strictly inside it: `.fa` and `x.fa.` are their own stems.
   */
  lemma StemShortensIff(name: string)
    ensures |Stem(name)| < |name| <==>
      name != "" && name[|name| - 1] != '.' && exists k :: 0 < k < |name| - 1 && name[k] == '.'
  {
    if name != "" && name[|name| - 1] != '.' && exists k :: 0 < k < |name| - 1 && name[k] == '.' {
      var k :| 0 < k < |name| - 1 && name[k] == '.';
      assert LastDot(name) >= k;
    }
  }

  /** The tensor file name depends on the input's final component only, never on its directory. */
  lemma ArtifactNameIgnoresDirectory(dir1: Path, dir2: Path, name: string)
    ensures ArtifactName(dir1 + [name]) == ArtifactName(dir2 + [name])
    ensures ArtifactName(dir1 + [name]) == Stem(name) + ".pt"
  {
  }

  /** Two inputs are written to the same file exactly when their stems agree. */
  lemma ArtifactNameCollision(p: Path, q: Path)
    ensures ArtifactName(p) == ArtifactName(q) <==> Stem(Name(p)) == Stem(Name(q))
  {
    var a, b := Stem(Name(p)), Stem(Name(q));
    if a + ".pt" == b + ".pt" {
      assert |a| == |b|;
      assert a == (a + ".pt")[..|a|];
      assert b == (b + ".pt")[..|b|];
    }
  }

  /**
   A tensor file read back as an input (when the output directory lies below the
   input directory and its name contains `.fa`) is mapped to its own name.
   */
  lemma OutputNamesItself(dir: Path, stem: string)
    requires stem != ""
    ensures ArtifactName(dir + [stem + ".pt"]) == stem + ".pt"
  {
    StemDropsLastSuffix(stem, "pt");
    assert stem + "." + "pt" == stem + ".pt";
  }

  /** The first window of a run: `fasta_windows/win_001.fa` is written as `win_001.pt`. */
  lemma ArtifactNameExample()
    ensures ArtifactName(["win_001.fa"]) == "win_001.pt"
    ensures ArtifactName(["chr1", "win_001.fasta"]) == "win_001.pt"
    ensures ArtifactName(["a.fa.gz"]) == "a.fa.pt"
  {
    StemDropsLastSuffix("win_001", "fa");
    assert "win_001" + "." + "fa" == "win_001.fa";
    StemDropsLastSuffix("win_001", "fasta");
    assert "win_001" + "." + "fasta" == "win_001.fasta";
    assert Name(["chr1", "win_001.fasta"]) == "win_001.fasta";
    StemDropsLastSuffix("a.fa", "gz");
    assert "a.fa" + "." + "gz" == "a.fa.gz";
  }
}
