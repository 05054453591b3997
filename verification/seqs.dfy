/** The three list and string primitives the reviewer relies on:
    `slice(-n)`, `substring(0, n)` and `join(sep)`. */
module Seqs {

  function Min(a: nat, b: nat): nat {
    if a <= b then a else b
  }

  /** `s.slice(-n)` for n >= 1: the last n elements of s, or all of s when it is shorter. */
  function Last<T>(s: seq<T>, n: nat): (r: seq<T>)
    requires n >= 1
    ensures |r| == Min(|s|, n)
    ensures r == s[|s| - |r|..]
  {
    if |s| <= n then s else s[|s| - n..]
  }

  /** `s.substring(0, n)`: the first n characters of s, or all of s when it is shorter. */
  function Take<T>(s: seq<T>, n: nat): (r: seq<T>)
    ensures |r| == Min(|s|, n)
    ensures r <= s
  {
    if |s| <= n then s else s[..n]
  }

  /** `parts.join(sep)`: empty for no parts, otherwise beginning with the first part. */
  function Join(parts: seq<string>, sep: string): (r: string)
    ensures |parts| == 0 ==> r == ""
    ensures |parts| > 0 ==> parts[0] <= r
  {
    if |parts| == 0 then ""
    else if |parts| == 1 then parts[0]
    else parts[0] + sep + Join(parts[1..], sep)
  }

  function SumLengths(parts: seq<string>): nat {
    if |parts| == 0 then 0 else |parts[0]| + SumLengths(parts[1..])
  }

  /** A join of k parts is the parts' characters plus k - 1 separators. */
  lemma {:induction false} JoinLength(parts: seq<string>, sep: string)
    requires |parts| > 0
    ensures |Join(parts, sep)| == SumLengths(parts) + (|parts| - 1) * |sep|
  {
    if |parts| > 1 {
      JoinLength(parts[1..], sep);
    }
  }

  /** Parts each at most `bound` long have at most |parts| * bound characters in all. */
  lemma {:induction false} SumLengthsBounded(parts: seq<string>, bound: nat)
    requires forall i :: 0 <= i < |parts| ==> |parts[i]| <= bound
    ensures SumLengths(parts) <= |parts| * bound
  {
    if |parts| > 0 {
      SumLengthsBounded(parts[1..], bound);
    }
  }

  /** Keeping the last n, then appending and keeping the last n again, is the same as
      appending everything and keeping the last n once. */
  lemma LastOfLast<T>(s: seq<T>, t: seq<T>, n: nat)
    requires n >= 1
    ensures Last(Last(s, n) + t, n) == Last(s + t, n)
  {
    var l := Last(s, n);
    if |s| <= n {
      assert l == s;
    } else {
      var a, b := Last(l + t, n), Last(s + t, n);
      assert |l| == n;
      assert |a| == n && |b| == n;
      forall i | 0 <= i < n
        ensures a[i] == b[i]
      {
        assert a[i] == (l + t)[|t| + i];
        assert b[i] == (s + t)[|s| + |t| - n + i];
        if |t| + i < n {
          assert (l + t)[|t| + i] == l[|t| + i] == s[|s| - n + |t| + i];
        } else {
          assert (l + t)[|t| + i] == t[|t| + i - n];
        }
      }
    }
  }
}
