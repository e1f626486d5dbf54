/** Small string vocabulary shared by the rest of the model: an optional
    value (JavaScript's `undefined`/`null` versus a present value), ASCII
    digits, JavaScript's `\s` class, substring containment and the
    order-preserving filter that a global `replace(/[^...]/g, '')` performs.
 */
module Text {

  /** A value that may be absent; `None` stands for `undefined` or `null`. */
  datatype Option<+T> = None | Some(value: T) {

    /** JavaScript's `x ?? d`: the value when present, `d` otherwise. */
    function OrElse(d: T): T {
      match this
      case Some(v) => v
      case None => d
    }
  }

  /** The regular-expression class `\d`: the ten ASCII digits only. */
  predicate IsDigit(c: char) {
    '0' <= c <= '9'
  }

  predicate AllDigits(s: string) {
    forall i :: 0 <= i < |s| ==> IsDigit(s[i])
  }

  /** The regular-expression class `\s` of ECMAScript: the WhiteSpace and
      LineTerminator code points. */
  predicate IsJsWhitespace(c: char) {
    || c == '\t' || c == '\n' || c == '\U{B}' || c == '\U{C}' || c == '\r'
    || c == ' ' || c == '\U{A0}' || c == '\U{1680}'
    || ('\U{2000}' <= c <= '\U{200A}')
    || c == '\U{2028}' || c == '\U{2029}' || c == '\U{202F}' || c == '\U{205F}'
    || c == '\U{3000}' || c == '\U{FEFF}'
  }

  /** The position of the first occurrence of `x` in `s`. */
  function FirstIndex<T(==)>(s: seq<T>, x: T): (i: nat)
    requires x in s
    ensures i < |s| && s[i] == x && x !in s[..i]
  {
    if s[0] == x then 0
    else
      assert s == [s[0]] + s[1..];
      var i := FirstIndex(s[1..], x);
      assert s[..i + 1] == [s[0]] + s[1..][..i];
      i + 1
  }

  /** The first occurrence is the only position with `x` and no earlier `x`. */
  lemma FirstIndexAt<T>(s: seq<T>, x: T, i: nat)
    requires i < |s| && s[i] == x && x !in s[..i]
    ensures FirstIndex(s, x) == i
  {
  }

  /** `x` occurs in `s` starting at position `k`. */
  predicate InfixAt<T(==)>(x: seq<T>, s: seq<T>, k: int) {
    0 <= k <= |s| - |x| && s[k..k + |x|] == x
  }

  /** `x` occurs as a contiguous block somewhere inside `s`. */
  ghost predicate IsInfix<T>(x: seq<T>, s: seq<T>) {
    exists k :: InfixAt(x, s, k)
  }

  /** The elements of `s` that satisfy `p`, in their original order. */
  function Keep<T>(s: seq<T>, p: T -> bool): (r: seq<T>)
    ensures |r| <= |s|
    ensures forall i :: 0 <= i < |r| ==> p(r[i])
  {
    if s == [] then []
    else (if p(s[0]) then [s[0]] else []) + Keep(s[1..], p)
  }

  /** Filtering commutes with concatenation: `Keep` is determined by what it
      does to each single element, so the result is exactly the in-order
      subsequence of accepted elements. */
  lemma {:induction false} KeepAppend<T>(a: seq<T>, b: seq<T>, p: T -> bool)
    ensures Keep(a + b, p) == Keep(a, p) + Keep(b, p)
  {
    if a == [] {
      assert a + b == b;
    } else {
      assert (a + b)[0] == a[0];
      assert (a + b)[1..] == a[1..] + b;
      KeepAppend(a[1..], b, p);
    }
  }

  /** An element survives the filter exactly when it was there and is accepted. */
  lemma {:induction false} KeepMembers<T>(s: seq<T>, p: T -> bool, x: T)
    ensures x in Keep(s, p) <==> x in s && p(x)
  {
    if s != [] {
      KeepMembers(s[1..], p, x);
      assert s == [s[0]] + s[1..];
    }
  }

  /** A sequence whose elements are all accepted passes through unchanged. */
  lemma {:induction false} KeepAccepted<T>(s: seq<T>, p: T -> bool)
    requires forall i :: 0 <= i < |s| ==> p(s[i])
    ensures Keep(s, p) == s
  {
    if s != [] {
      KeepAccepted(s[1..], p);
    }
  }

  /** Filtering twice with the same test is filtering once. */
  lemma KeepIdempotent<T>(s: seq<T>, p: T -> bool)
    ensures Keep(Keep(s, p), p) == Keep(s, p)
  {
    KeepAccepted(Keep(s, p), p);
  }

  /** A block `x` sitting between `a` and `b` is an infix of the whole. */
  lemma InfixOfConcat<T>(a: seq<T>, x: seq<T>, b: seq<T>)
    ensures IsInfix(x, a + x + b)
  {
    var s := a + x + b;
    assert s[|a|..|a| + |x|] == x;
    assert InfixAt(x, s, |a|);
  }

  /** An infix stays one when more is appended. */
  lemma InfixExtend<T>(x: seq<T>, s: seq<T>, t: seq<T>)
    requires IsInfix(x, s)
    ensures IsInfix(x, s + t)
  {
    var k :| InfixAt(x, s, k);
    assert (s + t)[k..k + |x|] == s[k..k + |x|];
    assert InfixAt(x, s + t, k);
  }

  /** A sequence is an infix of anything it ends. */
  lemma InfixOfSuffix<T>(a: seq<T>, x: seq<T>)
    ensures IsInfix(x, a + x)
  {
    assert (a + x)[|a|..|a| + |x|] == x;
    assert InfixAt(x, a + x, |a|);
  }

  /** Containment is transitive. */
  lemma InfixTransitive<T>(x: seq<T>, y: seq<T>, z: seq<T>)
    requires IsInfix(x, y) && IsInfix(y, z)
    ensures IsInfix(x, z)
  {
    var j :| InfixAt(x, y, j);
    var k :| InfixAt(y, z, k);
    forall i | 0 <= i < |x|
      ensures z[k + j + i] == x[i]
    {
      assert z[k..k + |y|][j + i] == y[j + i];
      assert y[j..j + |x|][i] == y[j + i];
    }
    assert z[k + j..k + j + |x|] == x;
    assert InfixAt(x, z, k + j);
  }
}
