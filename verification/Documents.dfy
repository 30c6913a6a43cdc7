/** Documents as maps from paths to values, and changes that touch one subtree. */
module Documents {

  type Path = seq<string>

  type Content = map<Path, string>

  /** What a change does to the subtree at its path: set, insert, remove, clear, compress and
      revert are all of this kind. */
  datatype Change = Change(path: Path, effect: Content -> Content)

  function Under(d: Content, p: Path): Content {
    map k | k in d && p <= k :: d[k]
  }

  function Outside(d: Content, p: Path): Content {
    map k | k in d && !(p <= k) :: d[k]
  }

  /** Only keys under the path change, and what they become depends on nothing else. */
  function Apply(c: Change, d: Content): Content {
    Outside(d, c.path) + Under(c.effect(Under(d, c.path)), c.path)
  }

  function ApplyAll(cs: seq<Change>, d: Content): Content {
    if cs == [] then d else Apply(cs[|cs| - 1], ApplyAll(cs[..|cs| - 1], d))
  }

  lemma ApplyAllSnoc(cs: seq<Change>, c: Change, d: Content)
    ensures ApplyAll(cs + [c], d) == Apply(c, ApplyAll(cs, d))
  {
    assert (cs + [c])[..|cs|] == cs;
  }

  /** Set the value at one path and drop what was below it. */
  function SetChange(path: Path, value: string): Change {
    Change(path, _ => map[path := value])
  }

  ghost predicate SameAt(a: Content, b: Content, k: Path) {
    (k in a <==> k in b) && (k in a ==> a[k] == b[k])
  }

  lemma ApplyOutside(c: Change, d: Content, k: Path)
    requires !(c.path <= k)
    ensures SameAt(Apply(c, d), d, k)
  {
  }

  /** Under its path a document becomes what the effect makes of the subtree that was there. */
  lemma ApplyInside(c: Change, d: Content, subtree: Content, k: Path)
    requires c.path <= k
    requires forall p :: (p in subtree <==> p in d && c.path <= p) && (p in subtree ==> subtree[p] == d[p])
    ensures SameAt(Apply(c, d), c.effect(subtree), k)
  {
    assert subtree == Under(d, c.path);
  }
}
