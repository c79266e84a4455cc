/**
 * The version order `packaging.version.parse` induces (PEP 440, "Summary of
 * permitted suffixes and relative ordering"): epoch first, then the release
 * numbers compared numerically with trailing zeros ignored, then, for the
 * same release, dev-only releases < pre-releases (a < b < rc) < the final
 * release < post-releases, a `.devN` suffix sorting below the version it
 * is attached to. Each version is mapped to a sequence of integers whose
 * lexicographic order is that order, as `packaging` does with its
 * comparison key; local version labels are not modelled.
 */
module Pep440 {
  import opened Wrappers

  datatype PreTag = Alpha | Beta | Rc

  /** A parsed public version `[N!]N(.N)*[{a|b|rc}N][.postN][.devN]`. */
  datatype Version = Version(epoch: nat, release: seq<nat>, pre: Option<(PreTag, nat)>, post: Option<nat>, dev: Option<nat>)

  /** The release numbers without their trailing zeros: 1.0 and 1.0.0 compare equal. */
  function StripZeros(r: seq<nat>): (s: seq<nat>)
    ensures |s| <= |r| && s == r[..|s|]
    ensures s == [] || s[|s| - 1] != 0
    ensures forall i :: |s| <= i < |r| ==> r[i] == 0
  {
    if r == [] then []
    else if r[|r| - 1] == 0 then StripZeros(r[..|r| - 1])
    else r
  }

  function TagRank(t: PreTag): int {
    match t
    case Alpha => 0
    case Beta => 1
    case Rc => 2
  }

  /** Each number shifted up by one and a 0 terminator, so that a shorter release sorts first. */
  function ReleaseKey(r: seq<nat>): seq<int> {
    seq(|r|, i requires 0 <= i < |r| => r[i] + 1) + [0]
  }

  /** A dev-only release sorts below every pre-release, no pre-release above all of them. */
  function PreKey(v: Version): seq<int> {
    if v.pre.None? && v.post.None? && v.dev.Some? then [0]
    else if v.pre.None? then [2]
    else [1, TagRank(v.pre.value.0), v.pre.value.1]
  }

  /** No post-release sorts below every post-release. */
  function PostKey(v: Version): seq<int> {
    if v.post.None? then [0] else [1, v.post.value]
  }

  /** No dev-release sorts above every dev-release. */
  function DevKey(v: Version): seq<int> {
    if v.dev.None? then [1] else [0, v.dev.value]
  }

  /** The part of the key that follows the release numbers. */
  function SuffixKey(v: Version): seq<int> {
    PreKey(v) + PostKey(v) + DevKey(v)
  }

  function Key(v: Version): seq<int> {
    [v.epoch] + ReleaseKey(StripZeros(v.release)) + SuffixKey(v)
  }

  /** Strict lexicographic order, a proper prefix sorting first. */
  predicate LexLess(a: seq<int>, b: seq<int>) {
    if a == [] then b != []
    else if b == [] then false
    else a[0] < b[0] || (a[0] == b[0] && LexLess(a[1..], b[1..]))
  }

  /** `parse(a) < parse(b)`. */
  predicate Less(a: Version, b: Version) {
    LexLess(Key(a), Key(b))
  }

  lemma {:induction false} LexIrreflexive(a: seq<int>)
    ensures !LexLess(a, a)
  {
    if a != [] {
      LexIrreflexive(a[1..]);
    }
  }

  lemma {:induction false} LexTransitive(a: seq<int>, b: seq<int>, c: seq<int>)
    requires LexLess(a, b) && LexLess(b, c)
    ensures LexLess(a, c)
  {
    if a != [] && a[0] == b[0] && b[0] == c[0] {
      LexTransitive(a[1..], b[1..], c[1..]);
    }
  }

  lemma {:induction false} LexTotal(a: seq<int>, b: seq<int>)
    ensures a == b || LexLess(a, b) || LexLess(b, a)
  {
    if a != [] && b != [] && a[0] == b[0] {
      LexTotal(a[1..], b[1..]);
      if a[1..] == b[1..] {
        assert a == [a[0]] + a[1..] && b == [b[0]] + b[1..];
      }
    }
  }

  lemma {:induction false} LexAsymmetric(a: seq<int>, b: seq<int>)
    requires LexLess(a, b)
    ensures !LexLess(b, a)
  {
    if a != [] && a[0] == b[0] {
      LexAsymmetric(a[1..], b[1..]);
    }
  }

  /** A common prefix does not change the order. */
  lemma {:induction false} LexCommonPrefix(p: seq<int>, x: seq<int>, y: seq<int>)
    ensures LexLess(p + x, p + y) <==> LexLess(x, y)
  {
    if p != [] {
      assert (p + x)[1..] == p[1..] + x;
      assert (p + y)[1..] == p[1..] + y;
      LexCommonPrefix(p[1..], x, y);
    } else {
      assert p + x == x && p + y == y;
    }
  }

  /** `<` on versions is irreflexive and transitive. */
  lemma LessStrictOrder(a: Version, b: Version, c: Version)
    ensures !Less(a, a)
    ensures Less(a, b) && Less(b, c) ==> Less(a, c)
  {
    LexIrreflexive(Key(a));
    if Less(a, b) && Less(b, c) {
      LexTransitive(Key(a), Key(b), Key(c));
    }
  }

  /** Two versions neither of which is below the other have the same key: they are equal as versions. */
  lemma LessConnected(a: Version, b: Version)
    ensures Less(a, b) || Less(b, a) || Key(a) == Key(b)
  {
    LexTotal(Key(a), Key(b));
  }

  /** "Not above" is transitive: the order is a total preorder, so a greatest element is well defined. */
  lemma NotLessTransitive(a: Version, b: Version, c: Version)
    requires !Less(b, a) && !Less(c, b)
    ensures !Less(c, a)
  {
    LessConnected(a, b);
    LessConnected(b, c);
    if Key(a) == Key(b) {
      if Key(b) == Key(c) {
        LexIrreflexive(Key(a));
      } else {
        LexAsymmetric(Key(b), Key(c));
      }
    } else if Key(b) == Key(c) {
      LexAsymmetric(Key(a), Key(b));
    } else {
      LexTransitive(Key(a), Key(b), Key(c));
      LexAsymmetric(Key(a), Key(c));
    }
  }

  /** The epoch is compared first: a later epoch wins over any release numbers. */
  lemma EpochDominates(a: Version, b: Version)
    requires a.epoch < b.epoch
    ensures Less(a, b)
  {
  }

  /** `1.0` and `1.0.0` are the same version. */
  lemma {:induction false} TrailingZerosIgnored(v: Version)
    ensures Key(v.(release := v.release + [0])) == Key(v)
  {
    var r := v.release + [0];
    assert r[..|r| - 1] == v.release;
  }

  /** Versions with the same epoch and release are ordered by their suffixes alone. */
  lemma SameRelease(a: Version, b: Version)
    requires a.epoch == b.epoch && StripZeros(a.release) == StripZeros(b.release)
    ensures Less(a, b) <==> LexLess(SuffixKey(a), SuffixKey(b))
  {
    LexCommonPrefix([a.epoch] + ReleaseKey(StripZeros(a.release)), SuffixKey(a), SuffixKey(b));
  }

  /** Release numbers compare as numbers, not as text: 1.9 < 1.10. */
  lemma NumericReleaseOrder()
    ensures Less(Version(0, [1, 9], None, None, None), Version(0, [1, 10], None, None, None))
  {
    var a := Version(0, [1, 9], None, None, None);
    var b := Version(0, [1, 10], None, None, None);
    assert ReleaseKey([1, 9]) == [2, 10, 0];
    assert ReleaseKey([1, 10]) == [2, 11, 0];
    assert Key(a) == [0, 2, 10, 0] + SuffixKey(a);
    assert Key(b) == [0, 2, 11, 0] + SuffixKey(b);
    assert LexLess([10, 0] + SuffixKey(a), [11, 0] + SuffixKey(b));
    LexCommonPrefix([0, 2], [10, 0] + SuffixKey(a), [11, 0] + SuffixKey(b));
    assert [0, 2] + ([10, 0] + SuffixKey(a)) == Key(a);
    assert [0, 2] + ([11, 0] + SuffixKey(b)) == Key(b);
  }

  /** `X.devN` (no pre- or post-release) sorts below every pre-release of X. */
  lemma DevReleaseBeforePreRelease(e: nat, r: seq<nat>, n: nat, p: (PreTag, nat), post: Option<nat>, dev: Option<nat>)
    ensures Less(Version(e, r, None, None, Some(n)), Version(e, r, Some(p), post, dev))
  {
    SameRelease(Version(e, r, None, None, Some(n)), Version(e, r, Some(p), post, dev));
  }

  /** Every pre-release of X sorts below the final release X. */
  lemma PreReleaseBeforeFinal(e: nat, r: seq<nat>, p: (PreTag, nat), post: Option<nat>, dev: Option<nat>)
    ensures Less(Version(e, r, Some(p), post, dev), Version(e, r, None, None, None))
  {
    SameRelease(Version(e, r, Some(p), post, dev), Version(e, r, None, None, None));
  }

  /** The final release X sorts below every post-release of X. */
  lemma FinalBeforePostRelease(e: nat, r: seq<nat>, n: nat, dev: Option<nat>)
    ensures Less(Version(e, r, None, None, None), Version(e, r, None, Some(n), dev))
  {
    var a := Version(e, r, None, None, None);
    var b := Version(e, r, None, Some(n), dev);
    SameRelease(a, b);
    LexCommonPrefix([2], [0] + DevKey(a), [1, n] + DevKey(b));
    assert SuffixKey(a) == [2] + ([0] + DevKey(a));
    assert SuffixKey(b) == [2] + ([1, n] + DevKey(b));
  }

  /** Pre-release tags rank alpha < beta < rc, before their numbers are looked at. */
  lemma PreTagOrder(e: nat, r: seq<nat>, s: PreTag, m: nat, t: PreTag, n: nat, post: Option<nat>, dev: Option<nat>, post': Option<nat>, dev': Option<nat>)
    requires TagRank(s) < TagRank(t)
    ensures Less(Version(e, r, Some((s, m)), post, dev), Version(e, r, Some((t, n)), post', dev'))
  {
    var a := Version(e, r, Some((s, m)), post, dev);
    var b := Version(e, r, Some((t, n)), post', dev');
    SameRelease(a, b);
    var x, y := SuffixKey(a), SuffixKey(b);
    assert x[0] == 1 == y[0];
    assert x[1..][0] == TagRank(s) && y[1..][0] == TagRank(t);
  }

  /** A `.devN` suffix sorts below the same version without it. */
  lemma DevBeforeItsRelease(v: Version)
    requires v.dev.Some?
    ensures Less(v, v.(dev := None))
  {
    var w := v.(dev := None);
    SameRelease(v, w);
    if v.pre.Some? || v.post.Some? {
      assert PreKey(v) == PreKey(w) && PostKey(v) == PostKey(w);
      LexCommonPrefix(PreKey(v) + PostKey(v), DevKey(v), DevKey(w));
    }
  }
}
