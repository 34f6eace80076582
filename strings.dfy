/**
 * The PHP string built-ins the core relies on: strtolower, strtoupper,
 * str_replace of one character, implode, substr_count of one character
 * and substr with a negative start.  Case mapping is ASCII only, as
 * PHP 8.2 and later do it (locale independent).
 */
module Strings {

  function LowerChar(c: char): char
  {
    if 'A' <= c <= 'Z' then (c as int + 32) as char else c
  }

  function UpperChar(c: char): char
  {
    if 'a' <= c <= 'z' then (c as int - 32) as char else c
  }

  /** strtolower */
  function Lower(s: string): (r: string)
    ensures |r| == |s|
  {
    seq(|s|, i requires 0 <= i < |s| => LowerChar(s[i]))
  }

  /** strtoupper */
  function Upper(s: string): (r: string)
    ensures |r| == |s|
  {
    seq(|s|, i requires 0 <= i < |s| => UpperChar(s[i]))
  }

  /** No ASCII lower-case letter occurs in s. */
  predicate NoLowerCase(s: string)
  {
    forall i :: 0 <= i < |s| ==> !('a' <= s[i] <= 'z')
  }

  /** No ASCII upper-case letter occurs in s. */
  predicate NoUpperCase(s: string)
  {
    forall i :: 0 <= i < |s| ==> !('A' <= s[i] <= 'Z')
  }

  lemma UpperHasNoLowerCase(s: string)
    ensures NoLowerCase(Upper(s))
  {
  }

  lemma LowerHasNoUpperCase(s: string)
    ensures NoUpperCase(Lower(s))
  {
  }

  lemma LowerIdempotent(s: string)
    ensures Lower(Lower(s)) == Lower(s)
  {
  }

  /** str_replace(from, to, s) for single characters. */
  function Replace(s: string, from: char, to: char): (r: string)
    ensures |r| == |s|
  {
    seq(|s|, i requires 0 <= i < |s| => if s[i] == from then to else s[i])
  }

  /** implode(sep, parts) */
  function Join(sep: string, parts: seq<string>): string
  {
    if |parts| == 0 then ""
    else if |parts| == 1 then parts[0]
    else parts[0] + sep + Join(sep, parts[1..])
  }

  /** implode of the first k parts, then the separator and the rest. */
  lemma {:induction false} JoinSplit(sep: string, parts: seq<string>, k: nat)
    requires 0 < k < |parts|
    ensures Join(sep, parts) == Join(sep, parts[..k]) + sep + Join(sep, parts[k..])
  {
    if k > 1 {
      JoinSplit(sep, parts[1..], k - 1);
      assert parts[..k][1..] == parts[1..][..k - 1];
      assert parts[1..][k - 1..] == parts[k..];
    }
  }

  /** implode of the first k parts starts implode of all of them. */
  lemma JoinPrefix(sep: string, parts: seq<string>, k: nat)
    requires 0 < k <= |parts|
    ensures Join(sep, parts[..k]) <= Join(sep, parts)
  {
    if k < |parts| {
      JoinSplit(sep, parts, k);
    } else {
      assert parts[..k] == parts;
    }
  }

  /** implode of nonempty parts ends with the last part. */
  lemma JoinEndsWithLast(sep: string, parts: seq<string>)
    requires |parts| > 0
    ensures var j := Join(sep, parts); var last := parts[|parts| - 1];
      |last| <= |j| && j[|j| - |last|..] == last
  {
    var last := parts[|parts| - 1];
    if |parts| > 1 {
      var k := |parts| - 1;
      JoinSplit(sep, parts, k);
      assert parts[k..] == [last];
      var pre := Join(sep, parts[..k]) + sep;
      assert Join(sep, parts) == pre + last;
      assert (pre + last)[|pre|..] == last;
    }
  }

  /**
   * In `pre + implode(sep, parts) + post`, where every part holds c once
   * and pre and sep hold none, the text up to the k-th part starts the
   * whole, ends with that part, and holds c k times.
   */
  lemma JoinUpTo(pre: string, sep: string, parts: seq<string>, post: string, k: nat, c: char)
    requires 0 < k <= |parts|
    requires c !in pre && c !in sep
    requires forall j :: 0 <= j < |parts| ==> Count(parts[j], c) == 1
    ensures var upTo := pre + Join(sep, parts[..k]);
      && upTo <= pre + Join(sep, parts) + post
      && |parts[k - 1]| <= |upTo| && upTo[|upTo| - |parts[k - 1]|..] == parts[k - 1]
      && Count(upTo, c) == k
  {
    var first := parts[..k];
    var joined := Join(sep, first);
    var all := Join(sep, parts);
    JoinPrefix(sep, parts, k);
    assert all == joined + all[|joined|..];
    assert pre + all + post == pre + joined + (all[|joined|..] + post);
    JoinEndsWithLast(sep, first);
    assert forall j :: 0 <= j < |first| ==> Count(first[j], c) == 1;
    CountJoinOnce(sep, first, c);
    CountFreePrefix(pre, joined, c);
  }

  /** substr_count(s, [c]) */
  function Count(s: string, c: char): nat
  {
    if s == "" then 0 else (if s[0] == c then 1 else 0) + Count(s[1..], c)
  }

  lemma {:induction false} CountAppend(a: string, b: string, c: char)
    ensures Count(a + b, c) == Count(a, c) + Count(b, c)
  {
    if a != "" {
      assert (a + b)[1..] == a[1..] + b;
      CountAppend(a[1..], b, c);
    } else {
      assert a + b == b;
    }
  }

  lemma {:induction false} CountAbsent(s: string, c: char)
    requires c !in s
    ensures Count(s, c) == 0
  {
    if s != "" {
      assert s == [s[0]] + s[1..];
      CountAbsent(s[1..], c);
    }
  }

  /** A prefix free of c adds nothing to the count. */
  lemma CountFreePrefix(a: string, s: string, c: char)
    requires c !in a
    ensures Count(a + s, c) == Count(s, c)
  {
    CountAbsent(a, c);
    CountAppend(a, s, c);
  }

  /** A suffix free of c adds nothing to the count. */
  lemma CountFreeSuffix(s: string, e: string, c: char)
    requires c !in e
    ensures Count(s + e, c) == Count(s, c)
  {
    CountAbsent(e, c);
    CountAppend(s, e, c);
  }

  /** Appending c itself adds one. */
  lemma CountMarkSuffix(s: string, c: char)
    ensures Count(s + [c], c) == Count(s, c) + 1
  {
    assert [c][1..] == "";
    CountAppend(s, [c], c);
  }

  lemma CountOnce(a: string, c: char, b: string)
    requires c !in a && c !in b
    ensures Count(a + [c] + b, c) == 1
  {
    CountAbsent(a, c);
    CountAbsent(b, c);
    assert [c][1..] == "";
    CountAppend(a, [c], c);
    CountAppend(a + [c], b, c);
  }

  /** Joining parts that each hold c once, with a separator free of c. */
  lemma {:induction false} CountJoinOnce(sep: string, parts: seq<string>, c: char)
    requires c !in sep
    requires forall i :: 0 <= i < |parts| ==> Count(parts[i], c) == 1
    ensures Count(Join(sep, parts), c) == |parts|
  {
    CountAbsent(sep, c);
    if |parts| > 1 {
      CountJoinOnce(sep, parts[1..], c);
      CountAppend(parts[0], sep, c);
      CountAppend(parts[0] + sep, Join(sep, parts[1..]), c);
    }
  }

  /** Joining parts free of c, with a separator that holds c once. */
  lemma {:induction false} CountJoinSeparators(sep: string, parts: seq<string>, c: char)
    requires Count(sep, c) == 1
    requires forall i :: 0 <= i < |parts| ==> Count(parts[i], c) == 0
    ensures Count(Join(sep, parts), c) == if |parts| == 0 then 0 else |parts| - 1
  {
    if |parts| > 1 {
      CountJoinSeparators(sep, parts[1..], c);
      CountAppend(parts[0], sep, c);
      CountAppend(parts[0] + sep, Join(sep, parts[1..]), c);
    }
  }

  /** Joining parts free of c, with a separator free of c. */
  lemma {:induction false} CountJoinNone(sep: string, parts: seq<string>, c: char)
    requires c !in sep
    requires forall i :: 0 <= i < |parts| ==> Count(parts[i], c) == 0
    ensures Count(Join(sep, parts), c) == 0
  {
    CountAbsent(sep, c);
    if |parts| > 1 {
      CountJoinNone(sep, parts[1..], c);
      CountAppend(parts[0], sep, c);
      CountAppend(parts[0] + sep, Join(sep, parts[1..]), c);
    }
  }

  /** n copies of s, as an array like the one `$placeholders[] = '?'` builds. */
  function Repeat(s: string, n: nat): (r: seq<string>)
    ensures |r| == n && forall i :: 0 <= i < n ==> r[i] == s
  {
    seq(n, _ => s)
  }

  /**
   * substr(h, -k) for k > 0: the last k characters of h, or the whole of h
   * when h is shorter (PHP clamps a negative start that reaches before the
   * beginning to 0).
   */
  function SubstrFromEnd(h: string, k: nat): (r: string)
  {
    if k >= |h| then h else h[|h| - k..]
  }
}
