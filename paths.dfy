/** Filesystem paths as the sequence of their components.

    A path is what `Path::components()` yields: for an absolute path the
    first component is the root directory, written "/", followed by one
    string per directory or file name. Normalisation (repeated separators,
    trailing slashes, `.`) is assumed to have happened already, so the
    number of components is simply the length of the sequence.
 */
module Paths {

  type Component = string
  type Path = seq<Component>

  /** `p.starts_with(base)`: the components of `base` are, one by one, the
      leading components of `p`. Whole components are compared, never
      characters. A path of the base's own length starts with it only when
      it is that base. */
  predicate StartsWith(p: Path, base: Path)
    ensures StartsWith(p, base) && |p| == |base| ==> p == base
  {
    |base| <= |p| && p[..|base|] == base
  }

  /** Component-wise reading of StartsWith: a prefix agrees with the path
      at every one of its positions. */
  lemma StartsWithAt(p: Path, base: Path)
    ensures StartsWith(p, base) <==> |base| <= |p| && forall i :: 0 <= i < |base| ==> p[i] == base[i]
  {
    if |base| <= |p| && forall i :: 0 <= i < |base| ==> p[i] == base[i] {
      assert p[..|base|] == base;
    }
  }

  lemma StartsWithTransitive(p: Path, q: Path, r: Path)
    requires StartsWith(p, q) && StartsWith(q, r)
    ensures StartsWith(p, r)
  {
    assert p[..|r|] == p[..|q|][..|r|];
  }

  /** A path starts with a shorter-or-equal base only if that base differs
      from it nowhere: one differing component, at any position, rules the
      prefix out, however much the two strings there have in common. */
  lemma DifferingComponentIsNoPrefix(p: Path, base: Path, i: nat)
    requires i < |base| && i < |p| && p[i] != base[i]
    ensures !StartsWith(p, base)
  {
    StartsWithAt(p, base);
  }

  /** Siblings under one parent never start with each other, even when one
      name is a character-prefix of the other (`pci1` and `pci10`). */
  lemma SiblingsAreNoPrefix(parent: Path, a: Component, b: Component)
    requires a != b
    ensures !StartsWith(parent + [b], parent + [a])
  {
    DifferingComponentIsNoPrefix(parent + [b], parent + [a], |parent|);
  }

  /** The segment-boundary case: written out as strings, "/sys/devices/pci1"
      is a character prefix of "/sys/devices/pci10", yet as paths the first
      is not a prefix of the second. */
  lemma SegmentBoundary()
    ensures "/sys/devices/pci1" <= "/sys/devices/pci10"
    ensures !StartsWith(["/", "sys", "devices", "pci10"], ["/", "sys", "devices", "pci1"])
  {
    assert "/sys/devices/pci10"[..|"/sys/devices/pci1"|] == "/sys/devices/pci1";
    SiblingsAreNoPrefix(["/", "sys", "devices"], "pci1", "pci10");
    assert ["/", "sys", "devices"] + ["pci10"] == ["/", "sys", "devices", "pci10"];
    assert ["/", "sys", "devices"] + ["pci1"] == ["/", "sys", "devices", "pci1"];
  }

  /** Prefixing both paths with the same root changes nothing. */
  lemma StartsWithUnderRoot(root: Path, p: Path, base: Path)
    ensures StartsWith(root + p, root + base) <==> StartsWith(p, base)
  {
    if StartsWith(root + p, root + base) {
      assert p[..|base|] == (root + p)[..|root + base|][|root|..];
    }
    if StartsWith(p, base) {
      assert (root + p)[..|root + base|] == root + p[..|base|];
    }
  }
}
