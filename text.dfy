/**
 * String helpers with Python's semantics: `str.startswith`, `str.contains`
 * (substring test), code-point ordering of `str` values, `sorted(xs) == xs`,
 * `os.path.basename` and the slice `s[:n]`.
 */
module Text {

  /** `s.startswith(p)`. */
  predicate StartsWith(s: string, p: string) {
    |p| <= |s| && s[..|p|] == p
  }

  /** `p in s` / `Series.str.contains(p)` with a literal pattern: some window of `s` equals `p`. */
  predicate Contains(s: string, p: string)
    decreases |s|
  {
    StartsWith(s, p) || (|s| > 0 && Contains(s[1..], p))
  }

  /** `p` occurs in `s` starting at index `i`. */
  predicate OccursAt(s: string, p: string, i: int) {
    0 <= i <= |s| - |p| && s[i..i + |p|] == p
  }

  /** `Contains` finds `p` exactly when it occurs at some index of `s`. */
  lemma {:induction false} ContainsIffOccurs(s: string, p: string)
    ensures Contains(s, p) <==> exists i :: OccursAt(s, p, i)
    decreases |s|
  {
    if StartsWith(s, p) {
      assert OccursAt(s, p, 0);
    } else if |s| > 0 {
      ContainsIffOccurs(s[1..], p);
      if Contains(s[1..], p) {
        var i :| OccursAt(s[1..], p, i);
        assert s[i + 1..i + 1 + |p|] == s[1..][i..i + |p|];
        assert OccursAt(s, p, i + 1);
      } else {
        forall i | OccursAt(s, p, i)
          ensures false
        {
          if i > 0 {
            forall k | 0 <= k < |p|
              ensures s[1..][i - 1..i - 1 + |p|][k] == p[k]
            {
              assert s[1..][i - 1..i - 1 + |p|][k] == s[i + k] == s[i..i + |p|][k];
            }
            assert OccursAt(s[1..], p, i - 1);
          }
        }
      }
    } else {
      assert forall i :: !OccursAt(s, p, i);
    }
  }

  /** A prefix is in particular a substring, so a prefix test never matches more names than a substring test. */
  lemma PrefixIsSubstring(s: string, p: string)
    requires StartsWith(s, p)
    ensures Contains(s, p)
  {
  }

  /** Any string that begins with `p` contains `p`; used for names such as `p + "-combined"`. */
  lemma {:induction false} ContainsOwnPrefix(p: string, rest: string)
    ensures Contains(p + rest, p)
  {
    assert (p + rest)[..|p|] == p;
  }

  /** Python's `a < b` on `str`: code-point lexicographic order, a proper prefix first. */
  predicate Less(a: string, b: string)
    decreases |a|
  {
    if |a| == 0 then |b| > 0
    else if |b| == 0 then false
    else if a[0] != b[0] then a[0] < b[0]
    else Less(a[1..], b[1..])
  }

  /** `sorted(xs) == xs`: no element is strictly smaller than the one before it. */
  predicate Sorted(xs: seq<string>) {
    |xs| < 2 || (!Less(xs[1], xs[0]) && Sorted(xs[1..]))
  }

  /** `os.path.basename(path)` on POSIX: everything after the last '/'. */
  function Basename(path: string): string {
    if |path| == 0 then []
    else if path[|path| - 1] == '/' then []
    else Basename(path[..|path| - 1]) + [path[|path| - 1]]
  }

  /** The base name is the suffix of the path after its last '/', and holds no '/'. */
  lemma {:induction false} BasenameIsLastComponent(path: string)
    ensures '/' !in Basename(path)
    ensures |Basename(path)| <= |path| && path[|path| - |Basename(path)|..] == Basename(path)
    ensures |Basename(path)| < |path| ==> path[|path| - |Basename(path)| - 1] == '/'
  {
    if |path| > 0 && path[|path| - 1] != '/' {
      var init, last := path[..|path| - 1], path[|path| - 1];
      BasenameIsLastComponent(init);
      var b, b' := Basename(path), Basename(init);
      assert b == b' + [last];
      assert path == init + [last];
      assert path[|path| - |b|..] == init[|init| - |b'|..] + [last];
      if |b| < |path| {
        assert path[|path| - |b| - 1] == init[|init| - |b'| - 1];
      }
    }
  }

  /** The slice `s[:n]`, which is the whole string when it is shorter than `n`. */
  function Prefix(s: string, n: nat): (p: string)
    ensures |p| == if |s| < n then |s| else n
    ensures p <= s
  {
    if |s| < n then s else s[..n]
  }
}
