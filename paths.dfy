/** Paths as sequences of segments. The separator is fixed and never appears
    inside a segment, so splitting a path on the separator gives back its
    segments, and joining a directory with a name appends one segment. */
module Paths {

  type Segment = string
  type Path = seq<Segment>

  /** p names q itself or one of q's ancestors. */
  predicate IsPrefix(p: Path, q: Path) {
    |p| <= |q| && q[..|p|] == p
  }

  /** q lies strictly below p. */
  predicate IsBelow(p: Path, q: Path) {
    |p| < |q| && q[..|p|] == p
  }

  /** The directory that contains p (os.path.dirname). */
  function Parent(p: Path): Path
    requires |p| > 0
  {
    p[..|p| - 1]
  }

  /** The last segment of p (os.path.basename). */
  function Basename(p: Path): Segment
    requires |p| > 0
  {
    p[|p| - 1]
  }

  /** Every ancestor of p, p included. */
  function Prefixes(p: Path): set<Path> {
    set k | 0 <= k <= |p| :: p[..k]
  }

  lemma PrefixTransitive(p: Path, q: Path, r: Path)
    requires IsPrefix(p, q) && IsPrefix(q, r)
    ensures IsPrefix(p, r)
  {
    assert r[..|p|] == r[..|q|][..|p|];
  }

  lemma InPrefixes(p: Path, q: Path)
    ensures q in Prefixes(p) <==> IsPrefix(q, p)
  {
    if IsPrefix(q, p) {
      assert p[..|q|] == q;
    }
  }
}
