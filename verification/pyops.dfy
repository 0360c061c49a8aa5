/** The Python built-ins the source leans on, with their exact edge-case semantics:
    slicing with negative or out-of-range bounds, `int()` of a float (truncation
    toward zero) and `str.split` on a one-character separator. */
module PyOps {

  /** How Python normalises a slice bound `i` for a sequence of length `n`:
      negative bounds count from the end, and every bound is clamped into [0, n]. */
  function SliceBound(i: int, n: nat): (b: nat)
    ensures b <= n
    ensures 0 <= i <= n ==> b == i
    ensures i < 0 ==> b == (if n + i < 0 then 0 else n + i)
    ensures i > n ==> b == n
  {
    if i < 0 then (if n + i < 0 then 0 else n + i)
    else if i > n then n
    else i
  }

  /** `s[a:b]`. */
  function Slice<T>(s: seq<T>, a: int, b: int): (r: seq<T>)
    ensures |r| <= |s|
    ensures SliceBound(a, |s|) <= SliceBound(b, |s|) ==> r == s[SliceBound(a, |s|)..SliceBound(b, |s|)]
    ensures SliceBound(a, |s|) > SliceBound(b, |s|) ==> r == []
  {
    var lo, hi := SliceBound(a, |s|), SliceBound(b, |s|);
    if lo <= hi then s[lo..hi] else []
  }

  /** `s[:k]`. */
  function Prefix<T>(s: seq<T>, k: int): (r: seq<T>)
    ensures r == s[..SliceBound(k, |s|)]
  {
    Slice(s, 0, k)
  }

  /** `s[a:]`. */
  function Suffix<T>(s: seq<T>, a: int): (r: seq<T>)
    ensures r == s[SliceBound(a, |s|)..]
  {
    s[SliceBound(a, |s|)..]
  }

  /** For non-negative cut points `a <= b` the three slices `s[:a]`, `s[a:b]` and `s[b:]`
      are consecutive and together give back `s`, each element exactly once. */
  lemma ThreeWayCut<T>(s: seq<T>, a: int, b: int)
    requires 0 <= a <= b
    ensures Prefix(s, a) + Slice(s, a, b) + Suffix(s, b) == s
    ensures |Prefix(s, a)| + |Slice(s, a, b)| + |Suffix(s, b)| == |s|
  {
    var n := |s|;
    var lo, hi := SliceBound(a, n), SliceBound(b, n);
    assert lo <= hi;
    assert s[..lo] + s[lo..hi] + s[hi..] == s;
  }

  /** `int(x)` for a finite float: truncation toward zero (not Dafny's floor). */
  function Trunc(x: real): (r: int)
    ensures 0.0 <= x ==> 0 <= r && r as real <= x < r as real + 1.0
    ensures x < 0.0 ==> r <= 0 && r as real - 1.0 < x <= r as real
  {
    if x >= 0.0 then x.Floor else -((-x).Floor)
  }

  /** `s.split(sep)`: the pieces between separators, including empty ones. */
  function Split(s: string, sep: char): (parts: seq<string>)
    ensures |parts| >= 1
    ensures forall i :: 0 <= i < |parts| ==> sep !in parts[i]
  {
    if |s| == 0 then [""]
    else
      var rest := Split(s[1..], sep);
      if s[0] == sep then [""] + rest
      else
        assert forall i :: 1 <= i < |rest| ==> rest[i] == rest[1..][i - 1];
        [[s[0]] + rest[0]] + rest[1..]
  }

  /** `sep.join(parts)`. */
  function Join(parts: seq<string>, sep: char): string
  {
    if |parts| == 0 then ""
    else if |parts| == 1 then parts[0]
    else parts[0] + [sep] + Join(parts[1..], sep)
  }

  /** Splitting and re-joining on the same separator gives back the text. */
  lemma {:induction false} SplitJoin(s: string, sep: char)
    ensures Join(Split(s, sep), sep) == s
  {
    if |s| > 0 {
      var rest := Split(s[1..], sep);
      SplitJoin(s[1..], sep);
      if s[0] == sep {
        assert Split(s, sep) == [""] + rest;
        assert s == [sep] + s[1..];
      } else {
        var parts := [[s[0]] + rest[0]] + rest[1..];
        assert Split(s, sep) == parts;
        if |rest| == 1 {
          assert s == [s[0]] + rest[0];
        } else {
          assert parts[1..] == rest[1..];
          assert Join(rest, sep) == rest[0] + [sep] + Join(rest[1..], sep);
          assert s == [s[0]] + s[1..];
        }
      }
    }
  }
}
