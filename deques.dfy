/**
 * Python's `collections.deque(maxlen=n)`, as used by the replay memory, the
 * frame buffer and the list of recent episode lengths, modelled on sequences:
 * the leftmost element is the oldest.
 */
module Deques {

  function Min(a: int, b: int): int
  {
    if a <= b then a else b
  }

  /** The most recent `n` items of `s`, in order (all of `s` when it is shorter). */
  function LastN<T>(s: seq<T>, n: nat): (r: seq<T>)
    ensures |r| == Min(|s|, n)
  {
    if |s| <= n then s else s[|s| - n..]
  }

  /**
   * `d.append(x)` on a deque `d` with `maxlen == n`: `x` goes on the right and,
   * when `d` was full, the leftmost item is discarded. A deque with
   * `maxlen == 0` stays empty.
   */
  function Append<T>(s: seq<T>, x: T, n: nat): (r: seq<T>)
    requires |s| <= n
    ensures |r| == Min(|s| + 1, n)
  {
    if |s| < n then s + [x] else if n == 0 then [] else s[1..] + [x]
  }

  /**
   * What `append` keeps: the last `n` items of the extended deque, so the
   * new item is the rightmost one, the old items stay in order when there
   * was room, and only the leftmost one goes when the deque was full.
   */
  lemma AppendKeepsNewest<T>(s: seq<T>, x: T, n: nat)
    requires |s| <= n
    ensures Append(s, x, n) == LastN(s + [x], n)
    ensures n > 0 ==> Append(s, x, n)[Min(|s| + 1, n) - 1] == x
    ensures |s| < n ==> Append(s, x, n)[..|s|] == s
    ensures |s| == n > 0 ==> Append(s, x, n)[..n - 1] == s[1..]
  {
    var r := Append(s, x, n);
    if |s| == n > 0 {
      assert r == (s + [x])[1..];
      assert r[..n - 1] == (s + [x])[1..n];
      assert (s + [x])[1..n] == s[1..];
    }
  }

  /** `n` copies of `x`. */
  function Repeat<T>(x: T, n: nat): (r: seq<T>)
    ensures |r| == n
    ensures forall i :: 0 <= i < n ==> r[i] == x
  {
    if n == 0 then [] else Repeat(x, n - 1) + [x]
  }

  /**
   * Appending to the window of the last `n` items gives the window of the
   * extended history: a deque with `maxlen == n` always holds the most
   * recent `n` items ever appended to it, in insertion order.
   */
  lemma {:induction false} AppendToWindow<T>(h: seq<T>, x: T, n: nat)
    ensures Append(LastN(h, n), x, n) == LastN(h + [x], n)
  {
    if |h| < n {
      assert LastN(h, n) == h;
    } else if n > 0 {
      var start := |h| - n;
      assert LastN(h, n) == h[start..];
      assert (h[start..] + [x])[1..] == h[start + 1..] + [x];
      assert (h + [x])[start + 1..] == h[start + 1..] + [x];
    }
  }
}
