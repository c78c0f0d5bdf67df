/**
 * The bounded history of output lines kept by a runner: each new line is
 * appended, then only the newest `n` lines are kept, oldest first.
 */
module LineCache {

  /**
   * The trim step: a cache longer than `n` keeps its last `n` entries
   * (Python's `cache[-n:]`, taken only when `len(cache) > n`).
   */
  function Trim<T>(s: seq<T>, n: nat): (r: seq<T>)
    ensures |r| == if |s| <= n then |s| else n
  {
    if |s| > n then s[|s| - n..] else s
  }

  /** What the trim keeps is the newest part of `s`, in order. */
  lemma TrimIsSuffix<T>(s: seq<T>, n: nat)
    ensures Trim(s, n) == s[|s| - |Trim(s, n)|..]
  {
  }

  /** `a` is the newest part of `b`. */
  predicate IsSuffix<T(==)>(a: seq<T>, b: seq<T>) {
    |a| <= |b| && b[|b| - |a|..] == a
  }

  /** One publication: append the new entry, then trim. */
  function Push<T>(cache: seq<T>, e: T, n: nat): (r: seq<T>)
    requires n > 0
    ensures 0 < |r| <= n
    ensures r[|r| - 1] == e
  {
    Trim(cache + [e], n)
  }

  /**
   * Trimming before each append loses nothing that the final trim keeps:
   * pushing onto the trimmed history is the same as trimming the whole
   * history with the new entry appended.
   */
  lemma PushTrimmed<T>(h: seq<T>, e: T, n: nat)
    requires n > 0
    ensures Push(Trim(h, n), e, n) == Trim(h + [e], n)
  {

  }

  /** Publishing the entries `es` one after another, starting from `cache`. */
  function PublishAll<T>(cache: seq<T>, es: seq<T>, n: nat): (r: seq<T>)
    requires n > 0
    ensures |r| <= n || (es == [] && r == cache)
    decreases |es|
  {
    if es == [] then cache else PublishAll(Push(cache, es[0], n), es[1..], n)
  }

  /**
   * After any number of publications the cache holds exactly the newest
   * `n` lines of the whole history (all of them while there are at most
   * `n`), in arrival order.
   */
  lemma {:induction false} PublishAllKeepsNewest<T>(h: seq<T>, es: seq<T>, n: nat)
    requires n > 0
    ensures PublishAll(Trim(h, n), es, n) == Trim(h + es, n)
    decreases |es|
  {
    if es == [] {
      assert h + es == h;
    } else {
      var h' := h + [es[0]];
      calc {
        PublishAll(Trim(h, n), es, n);
        PublishAll(Push(Trim(h, n), es[0], n), es[1..], n);
        { PushTrimmed(h, es[0], n); }
        PublishAll(Trim(h', n), es[1..], n);
        { PublishAllKeepsNewest(h', es[1..], n); }
        Trim(h' + es[1..], n);
        { assert h' + es[1..] == h + es; }
        Trim(h + es, n);
      }
    }
  }
}
