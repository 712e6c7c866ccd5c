/** Well-formed identifiers, and the bytewise order in which the repository keeps lists of strings. */
module Texts {
  import Decimal

  predicate TokenChar(c: char) {
    'a' <= c <= 'z' || 'A' <= c <= 'Z' || Decimal.IsDigit(c) || c in "._-:/"
  }

  predicate ValidToken(s: string) { 1 <= |s| <= 128 && forall i :: 0 <= i < |s| ==> TokenChar(s[i]) }

  const DIGEST_PREFIX := "sha256:"

  predicate ValidDigest(s: string) {
    && |s| == 71 && s[..7] == DIGEST_PREFIX
    && forall i :: 7 <= i < 71 ==> Decimal.IsDigit(s[i]) || 'a' <= s[i] <= 'f'
  }

  /** Whether `a` comes before `b`, given that they agree before position `k`. */
  predicate LessFrom(a: string, b: string, k: nat)
    requires k <= |a| && k <= |b|
    decreases |a| - k
  {
    k < |b| && (k == |a| || a[k] < b[k] || (a[k] == b[k] && LessFrom(a, b, k + 1)))
  }

  predicate Less(a: string, b: string) { LessFrom(a, b, 0) }

  lemma {:induction false} LessIsTransitiveFrom(a: string, b: string, c: string, k: nat)
    requires k <= |a| && k <= |b| && k <= |c| && LessFrom(a, b, k) && LessFrom(b, c, k)
    ensures LessFrom(a, c, k)
    decreases |a| - k
  {
    if k < |a| && a[k] == b[k] == c[k] {
      LessIsTransitiveFrom(a, b, c, k + 1);
    }
  }

  lemma {:induction false} LessIsStrictFrom(a: string, b: string, k: nat)
    requires k <= |a| && k <= |b| && LessFrom(a, b, k)
    ensures a != b && !LessFrom(b, a, k)
    decreases |a| - k
  {
    if k < |a| && a[k] == b[k] {
      LessIsStrictFrom(a, b, k + 1);
    }
  }

  lemma {:induction false} LessIsTotalFrom(a: string, b: string, k: nat)
    requires k <= |a| && k <= |b| && a[..k] == b[..k] && !LessFrom(a, b, k) && !LessFrom(b, a, k)
    ensures a == b
    decreases |a| - k
  {
    if k < |a| && k < |b| {
      assert a[..k + 1] == a[..k] + [a[k]] && b[..k + 1] == b[..k] + [b[k]];
      LessIsTotalFrom(a, b, k + 1);
    } else {
      assert a[..|a|] == a && b[..|b|] == b;
    }
  }

  /** Each element comes before the next one. */
  predicate Ascending(xs: seq<string>) { forall i :: 0 < i < |xs| ==> Less(xs[i - 1], xs[i]) }

  /** Hence before every later one: the elements are distinct. */
  lemma {:induction false} AscendingPairs(xs: seq<string>, i: nat, j: nat)
    requires Ascending(xs) && i < j < |xs|
    ensures Less(xs[i], xs[j]) && xs[i] != xs[j] && !Less(xs[j], xs[i])
    decreases j
  {
    if i + 1 < j {
      AscendingPairs(xs, i, j - 1);
      LessIsTransitiveFrom(xs[i], xs[j - 1], xs[j], 0);
    }
    LessIsStrictFrom(xs[i], xs[j], 0);
  }

  /** Binary search between two bounds. */
  predicate Search(xs: seq<string>, key: string, lo: nat, hi: nat)
    requires lo <= hi <= |xs|
    decreases hi - lo
  {
    if lo == hi then false
    else
      var mid := (lo + hi) / 2;
      if xs[mid] == key then true
      else if Less(xs[mid], key) then Search(xs, key, mid + 1, hi)
      else Search(xs, key, lo, mid)
  }

  /** On an ascending list it finds exactly the elements. */
  lemma {:induction false} SearchFinds(xs: seq<string>, key: string, lo: nat, hi: nat)
    requires Ascending(xs) && lo <= hi <= |xs|
    ensures Search(xs, key, lo, hi) <==> key in xs[lo..hi]
    decreases hi - lo
  {
    if lo < hi {
      var mid := (lo + hi) / 2;
      if xs[mid] == key {
        assert xs[lo..hi][mid - lo] == key;
      } else if Less(xs[mid], key) {
        SearchFinds(xs, key, mid + 1, hi);
        assert xs[lo..hi] == xs[lo..mid + 1] + xs[mid + 1..hi];
        NotBelow(xs, key, lo, mid);
      } else {
        SearchFinds(xs, key, lo, mid);
        assert xs[lo..hi] == xs[lo..mid] + xs[mid..hi];
        NotAbove(xs, key, mid, hi);
      }
    }
  }

  lemma NotBelow(xs: seq<string>, key: string, lo: nat, mid: nat)
    requires Ascending(xs) && lo <= mid < |xs| && Less(xs[mid], key)
    ensures key !in xs[lo..mid + 1]
  {
    LessIsStrictFrom(xs[mid], key, 0);
    forall i | lo <= i <= mid ensures xs[i] != key {
      if i < mid {
        AscendingPairs(xs, i, mid);
      }
    }
  }

  lemma NotAbove(xs: seq<string>, key: string, mid: nat, hi: nat)
    requires Ascending(xs) && mid < hi <= |xs| && xs[mid] != key && !Less(xs[mid], key)
    ensures key !in xs[mid..hi]
  {
    forall i | mid <= i < hi ensures xs[i] != key {
      if mid < i {
        AscendingPairs(xs, mid, i);
      }
    }
  }
}
