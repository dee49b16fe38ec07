/**
 * Substring search as the builder uses it through JavaScript's string
 * methods: `indexOf` (first occurrence, or -1), `substring` (indices clamped
 * to the string and swapped when out of order) and `replace` with a string
 * pattern (only the first occurrence is replaced).
 */
module TextSearch {

  datatype Option<T> = None | Some(value: T)

  /** `k` occurs in `s` starting at index `i`. */
  predicate OccursAt(s: string, k: string, i: nat) {
    i + |k| <= |s| && s[i..i + |k|] == k
  }

  predicate Contains(s: string, k: string) {
    exists i: nat :: i <= |s| && OccursAt(s, k, i)
  }

  /** The first occurrence of `k` in `s` at or after index `from`. */
  function IndexOfFrom(s: string, k: string, from: nat): (r: Option<nat>)
    decreases |s| - from
    ensures r.Some? ==> from <= r.value && OccursAt(s, k, r.value)
    ensures r.Some? ==> forall j: nat :: from <= j < r.value ==> !OccursAt(s, k, j)
    ensures r.None? ==> forall j: nat :: from <= j ==> !OccursAt(s, k, j)
  {
    if from + |k| > |s| then None
    else if OccursAt(s, k, from) then Some(from)
    else IndexOfFrom(s, k, from + 1)
  }

  /** `s.indexOf(k)`, with `None` standing for -1. */
  function IndexOf(s: string, k: string): (r: Option<nat>)
    ensures r.Some? <==> Contains(s, k)
    ensures r.Some? ==> OccursAt(s, k, r.value)
    ensures r.Some? ==> forall j: nat :: j < r.value ==> !OccursAt(s, k, j)
  {
    IndexOfFrom(s, k, 0)
  }

  /** `s.indexOf(k)` as JavaScript returns it. */
  function JsIndexOf(s: string, k: string): (r: int)
    ensures -1 <= r
  {
    match IndexOf(s, k)
    case Some(i) => i
    case None => -1
  }

  function Clamp(i: int, n: nat): (r: nat)
    ensures r <= n
  {
    if i < 0 then 0 else if i > n then n else i
  }

  /** `s.substring(a, b)`: both indices clamped to `[0, |s|]`, then swapped if out of order. */
  function JsSubstring(s: string, a: int, b: int): (r: string)
    ensures 0 <= a <= b <= |s| ==> r == s[a..b]
    ensures |r| <= |s|
  {
    var lo, hi := Clamp(a, |s|), Clamp(b, |s|);
    if lo <= hi then s[lo..hi] else s[hi..lo]
  }

  /** `s.replace(k, replacement)` for a string pattern `k`: only the first occurrence is replaced. */
  function ReplaceFirst(s: string, k: string, replacement: string): (r: string)
    ensures !Contains(s, k) ==> r == s
    ensures IndexOf(s, k).Some? ==> r == s[..IndexOf(s, k).value] + replacement + s[IndexOf(s, k).value + |k|..]
  {
    match IndexOf(s, k)
    case Some(i) => s[..i] + replacement + s[i + |k|..]
    case None => s
  }

  /**
   * Where `k` first occurs at `i`, the replacement takes the place of that
   * occurrence: the text before it and the text after it are kept.
   */
  lemma {:induction false} ReplaceFirstAt(s: string, k: string, replacement: string, i: nat)
    requires OccursAt(s, k, i)
    requires forall j: nat :: j < i ==> !OccursAt(s, k, j)
    ensures var r := ReplaceFirst(s, k, replacement);
      r[..i] == s[..i] && r[i..i + |replacement|] == replacement && r[i + |replacement|..] == s[i + |k|..]
  {
    IndexOfIsFirst(s, k, i);
    var r := ReplaceFirst(s, k, replacement);
    assert r == s[..i] + replacement + s[i + |k|..];
  }

  /** The unique least occurrence: a first occurrence found by other means is the one `IndexOf` reports. */
  lemma {:induction false} IndexOfIsFirst(s: string, k: string, i: nat)
    requires OccursAt(s, k, i)
    requires forall j: nat :: j < i ==> !OccursAt(s, k, j)
    ensures IndexOf(s, k) == Some(i)
  {
    assert Contains(s, k);
  }

  /** Characters of an occurrence are characters of the pattern. */
  lemma {:induction false} OccurrenceCovers(s: string, k: string, p: nat, x: nat)
    requires OccursAt(s, k, p)
    requires p <= x < p + |k|
    ensures s[x] == k[x - p] && s[x] in k
  {
    assert s[p..p + |k|][x - p] == s[x];
  }

  /** An occurrence inside the slice `s[a..b]` is an occurrence of `s` shifted by `a`, and back. */
  lemma {:induction false} OccursInSlice(s: string, k: string, a: nat, b: nat, p: nat)
    requires a <= b <= |s|
    requires a <= p && p + |k| <= b
    ensures OccursAt(s, k, p) <==> OccursAt(s[a..b], k, p - a)
  {
    var u := s[a..b];
    var w, v := u[p - a..p - a + |k|], s[p..p + |k|];
    forall t | 0 <= t < |k| ensures w[t] == v[t] {
      assert w[t] == u[p - a + t] == s[p + t];
    }
    assert w == v;
  }

  lemma {:induction false} ContainsSlice(s: string, k: string, a: nat, b: nat)
    requires a <= b <= |s|
    requires !Contains(s, k)
    ensures !Contains(s[a..b], k)
  {
    forall p: nat | p + |k| <= b - a ensures !OccursAt(s[a..b], k, p) {
      OccursInSlice(s, k, a, b, p + a);
    }
  }

  /**
   * Two texts that do not contain `k` do not contain it once joined, provided
   * one of the two characters at the seam is not a character of `k`.
   */
  lemma {:induction false} NotContainsConcat(x: string, y: string, k: string)
    requires !Contains(x, k) && !Contains(y, k)
    requires (|x| > 0 && x[|x| - 1] !in k) || (|y| > 0 && y[0] !in k)
    ensures !Contains(x + y, k)
  {
    var s := x + y;
    assert s[0..|x|] == x && s[|x|..|s|] == y;
    forall p: nat | p + |k| <= |s| ensures !OccursAt(s, k, p) {
      if p + |k| <= |x| {
        OccursInSlice(s, k, 0, |x|, p);
      } else if p >= |x| {
        OccursInSlice(s, k, |x|, |s|, p);
      } else if OccursAt(s, k, p) {
        if |x| > 0 && x[|x| - 1] !in k {
          OccurrenceCovers(s, k, p, |x| - 1);
        } else {
          OccurrenceCovers(s, k, p, |x|);
        }
      }
    }
  }

  /**
   * The first occurrence in `x + y`, where `x` cannot hold or start one: it is
   * the first occurrence in `y`, shifted by `|x|`.
   */
  lemma {:induction false} IndexOfAfterPrefix(x: string, y: string, k: string)
    requires !Contains(x, k)
    requires |x| > 0 ==> x[|x| - 1] !in k
    ensures IndexOf(x + y, k) == match IndexOf(y, k) case Some(j) => Some(|x| + j) case None => None
  {
    NoOccurrenceInPrefix(x, y, k);
    OccurrenceAfterPrefix(x, y, k);
    match IndexOf(y, k)
    case Some(j) =>
      assert OccursAt(x + y, k, |x| + j);
      IndexOfIsFirst(x + y, k, |x| + j);
    case None =>
  }

  lemma {:induction false} NoOccurrenceInPrefix(x: string, y: string, k: string)
    requires !Contains(x, k)
    requires |x| > 0 ==> x[|x| - 1] !in k
    ensures forall p: nat :: p < |x| ==> !OccursAt(x + y, k, p)
  {
    var s := x + y;
    assert s[0..|x|] == x;
    forall p: nat | p < |x| ensures !OccursAt(s, k, p) {
      if p + |k| <= |x| {
        OccursInSlice(s, k, 0, |x|, p);
      } else if OccursAt(s, k, p) {
        OccurrenceCovers(s, k, p, |x| - 1);
      }
    }
  }

  lemma {:induction false} OccurrenceAfterPrefix(x: string, y: string, k: string)
    ensures forall p: nat :: |x| <= p ==> (OccursAt(x + y, k, p) <==> OccursAt(y, k, p - |x|))
  {
    var s := x + y;
    assert s[|x|..|s|] == y;
    forall p: nat | |x| <= p ensures OccursAt(s, k, p) <==> OccursAt(y, k, p - |x|) {
      if p + |k| <= |s| {
        OccursInSlice(s, k, |x|, |s|, p);
      }
    }
  }

  /** Cutting off a prefix that ends before the first occurrence keeps that occurrence first. */
  lemma {:induction false} IndexOfInSuffix(s: string, k: string, a: nat)
    requires a <= |s|
    requires IndexOf(s, k).Some? && a <= IndexOf(s, k).value
    ensures IndexOf(s[a..], k) == Some(IndexOf(s, k).value - a)
  {
    var j := IndexOf(s, k).value;
    OccursInSlice(s, k, a, |s|, j);
    forall p: nat | p < j - a ensures !OccursAt(s[a..], k, p) {
      if p + a + |k| <= |s| {
        OccursInSlice(s, k, a, |s|, p + a);
      }
    }
    IndexOfIsFirst(s[a..], k, j - a);
  }

  /** Text appended after the first occurrence does not move it. */
  lemma {:induction false} IndexOfPrefixExtension(x: string, y: string, k: string)
    requires IndexOf(x, k).Some?
    ensures IndexOf(x + y, k) == IndexOf(x, k)
  {
    var s, i := x + y, IndexOf(x, k).value;
    assert s[0..|x|] == x;
    OccursInSlice(s, k, 0, |x|, i);
    forall j: nat | j < i ensures !OccursAt(s, k, j) {
      OccursInSlice(s, k, 0, |x|, j);
    }
    IndexOfIsFirst(s, k, i);
  }

  /** Cutting off text after the first occurrence does not move it. */
  lemma {:induction false} IndexOfInPrefix(s: string, k: string, n: nat)
    requires IndexOf(s, k).Some? && IndexOf(s, k).value + |k| <= n <= |s|
    ensures IndexOf(s[..n], k) == IndexOf(s, k)
  {
    var i := IndexOf(s, k).value;
    assert s[..n] == s[0..n];
    OccursInSlice(s, k, 0, n, i);
    forall j: nat | j < i ensures !OccursAt(s[..n], k, j) {
      if j + |k| <= n {
        OccursInSlice(s, k, 0, n, j);
      }
    }
    IndexOfIsFirst(s[..n], k, i);
  }

  /** A prefix too short to hold the first occurrence holds none. */
  lemma {:induction false} NoOccurrenceBefore(s: string, k: string, n: nat)
    requires n <= |s|
    requires IndexOf(s, k).Some? ==> n < IndexOf(s, k).value + |k|
    ensures !Contains(s[..n], k)
  {
    assert s[..n] == s[0..n];
    forall j: nat | j + |k| <= n ensures !OccursAt(s[..n], k, j) {
      OccursInSlice(s, k, 0, n, j);
    }
  }
}
