/**
 * The parts of Rust's string API that the renderers and predicates use:
 * `str::repeat`, `[String]::join`, `str::split` on a one-character pattern,
 * `str::to_lowercase` (on ASCII text) and `str::trim`.
 */
module Strings {

  /** `c` repeated `n` times, as `c.to_string().repeat(n)`. */
  function Repeat(c: char, n: nat): (r: string)
    ensures |r| == n
    ensures forall i :: 0 <= i < n ==> r[i] == c
  {
    if n == 0 then "" else [c] + Repeat(c, n - 1)
  }

  /** `parts.join(sep)`: the parts with `sep` between neighbours; "" for no parts. */
  function Join(parts: seq<string>, sep: string): (r: string)
    ensures |parts| == 0 ==> r == ""
    ensures |parts| > 0 ==> parts[0] <= r
  {
    if |parts| == 0 then ""
    else if |parts| == 1 then parts[0]
    else parts[0] + sep + Join(parts[1..], sep)
  }

  /** Joining a concatenation puts exactly one separator at the seam. */
  lemma {:induction false} JoinAppend(xs: seq<string>, ys: seq<string>, sep: string)
    requires |xs| > 0 && |ys| > 0
    ensures Join(xs + ys, sep) == Join(xs, sep) + sep + Join(ys, sep)
  {
    if |xs| == 1 {
      assert (xs + ys)[1..] == ys;
    } else {
      assert (xs + ys)[1..] == xs[1..] + ys;
      JoinAppend(xs[1..], ys, sep);
    }
  }

  /**
   * Every part shows up in the joined text, right after the joined parts
   * before it and one separator, in the original order.
   */
  lemma JoinAt(parts: seq<string>, i: nat, sep: string)
    requires i < |parts|
    ensures i == 0 ==> parts[0] <= Join(parts, sep)
    ensures i > 0 ==> Join(parts[..i], sep) + sep + parts[i] <= Join(parts, sep)
  {
    if i > 0 {
      assert parts == parts[..i] + parts[i..];
      JoinAppend(parts[..i], parts[i..], sep);
      assert Join(parts[..i], sep) + sep + Join(parts[i..], sep) == Join(parts, sep);
    }
  }

  /**
   * `s.split(c)` for a one-character pattern: the maximal pieces between
   * occurrences of `c`. There is always at least one piece ("" splits into
   * [""]), and no piece contains `c`.
   */
  function Split(s: string, c: char): (r: seq<string>)
    ensures |r| >= 1
    ensures forall i :: 0 <= i < |r| ==> c !in r[i]
    decreases |s|
  {
    if |s| == 0 then [""]
    else
      var rest := Split(s[1..], c);
      if s[0] == c then [""] + rest
      else [[s[0]] + rest[0]] + rest[1..]
  }

  /** Splitting and re-joining with the same character gives the text back. */
  lemma {:induction false} JoinSplit(s: string, c: char)
    ensures Join(Split(s, c), [c]) == s
    decreases |s|
  {
    if |s| > 0 {
      var rest := Split(s[1..], c);
      JoinSplit(s[1..], c);
      if s[0] == c {
        assert ([""] + rest)[1..] == rest;
      } else if |rest| > 1 {
        assert ([[s[0]] + rest[0]] + rest[1..])[1..] == rest[1..];
      }
    }
  }

  /** Text without the separator is one piece. */
  lemma {:induction false} SplitNoSeparator(p: string, c: char)
    requires c !in p
    ensures Split(p, c) == [p]
    decreases |p|
  {
    if |p| > 0 {
      SplitNoSeparator(p[1..], c);
      assert p[0] != c;
      assert [p[0]] + p[1..] == p;
    }
  }

  /** A separator-free prefix followed by the separator is split off as one piece. */
  lemma {:induction false} SplitCons(p: string, rest: string, c: char)
    requires c !in p
    ensures Split(p + [c] + rest, c) == [p] + Split(rest, c)
    decreases |p|
  {
    var s := p + [c] + rest;
    if |p| == 0 {
      assert s[1..] == rest;
    } else {
      assert s[1..] == p[1..] + [c] + rest;
      SplitCons(p[1..], rest, c);
      assert [p[0]] + p[1..] == p;
    }
  }

  /** Joining separator-free pieces and splitting again gives the pieces back. */
  lemma {:induction false} SplitJoin(parts: seq<string>, c: char)
    requires |parts| >= 1
    requires forall i :: 0 <= i < |parts| ==> c !in parts[i]
    ensures Split(Join(parts, [c]), c) == parts
  {
    if |parts| == 1 {
      SplitNoSeparator(parts[0], c);
    } else {
      SplitJoin(parts[1..], c);
      SplitCons(parts[0], Join(parts[1..], [c]), c);
      assert [parts[0]] + parts[1..] == parts;
    }
  }

  /** Lower-casing of one ASCII character; every other character is kept. */
  function LowerChar(ch: char): char
  {
    if 'A' <= ch <= 'Z' then (ch as int + 32) as char else ch
  }

  /** `s.to_lowercase()`, restricted to ASCII upper-case letters. */
  function Lower(s: string): (r: string)
    ensures |r| == |s|
    ensures forall i :: 0 <= i < |s| ==> r[i] == LowerChar(s[i])
  {
    seq(|s|, i requires 0 <= i < |s| => LowerChar(s[i]))
  }

  /**
   * `char::is_whitespace`, the test `trim` removes characters by: the
   * characters with Unicode's White_Space property.
   */
  predicate IsWhitespace(ch: char)
  {
    var c := ch as int;
    (0x09 <= c <= 0x0D) || c == 0x20 || c == 0x85 || c == 0xA0 || c == 0x1680
    || (0x2000 <= c <= 0x200A) || c == 0x2028 || c == 0x2029 || c == 0x202F
    || c == 0x205F || c == 0x3000
  }

  /** `s.trim_start()`: `s` without its leading whitespace. */
  function TrimStart(s: string): string
  {
    if |s| > 0 && IsWhitespace(s[0]) then TrimStart(s[1..]) else s
  }

  /** `s.trim_end()`: `s` without its trailing whitespace. */
  function TrimEnd(s: string): string
  {
    if |s| > 0 && IsWhitespace(s[|s| - 1]) then TrimEnd(s[..|s| - 1]) else s
  }

  /** `s.trim()`. */
  function Trim(s: string): string
  {
    TrimEnd(TrimStart(s))
  }

  /**
   * `TrimStart` drops exactly the longest all-whitespace prefix: what it
   * keeps is the suffix from position `n` on, everything before `n` is
   * whitespace, and the character at `n` is not.
   */
  lemma {:induction false} TrimStartSpec(s: string) returns (n: nat)
    ensures n <= |s| && TrimStart(s) == s[n..]
    ensures forall k :: 0 <= k < n ==> IsWhitespace(s[k])
    ensures n < |s| ==> !IsWhitespace(s[n])
    decreases |s|
  {
    if |s| > 0 && IsWhitespace(s[0]) {
      var m := TrimStartSpec(s[1..]);
      n := m + 1;
      assert s[1..][m..] == s[n..];
      forall k | 0 <= k < n
        ensures IsWhitespace(s[k])
      {
        if k > 0 {
          assert s[k] == s[1..][k - 1];
        }
      }
    } else {
      n := 0;
    }
  }

  /**
   * `TrimEnd` drops exactly the longest all-whitespace suffix: what it keeps
   * is the prefix before position `n`, everything from `n` on is whitespace,
   * and the character before `n` is not.
   */
  lemma {:induction false} TrimEndSpec(s: string) returns (n: nat)
    ensures n <= |s| && TrimEnd(s) == s[..n]
    ensures forall k :: n <= k < |s| ==> IsWhitespace(s[k])
    ensures 0 < n ==> !IsWhitespace(s[n - 1])
    decreases |s|
  {
    if |s| > 0 && IsWhitespace(s[|s| - 1]) {
      var front := s[..|s| - 1];
      n := TrimEndSpec(front);
      assert front[..n] == s[..n];
      forall k | n <= k < |s|
        ensures IsWhitespace(s[k])
      {
        if k < |s| - 1 {
          assert s[k] == front[k];
        }
      }
    } else {
      n := |s|;
    }
  }

  /**
   * `Trim(s)` is the slice of `s` between its leading and its trailing
   * whitespace: everything cut off is whitespace, and what is kept neither
   * starts nor ends with whitespace.
   */
  lemma TrimIsSlice(s: string) returns (i: nat, j: nat)
    ensures i <= j <= |s| && Trim(s) == s[i..j]
    ensures forall k :: 0 <= k < i ==> IsWhitespace(s[k])
    ensures forall k :: j <= k < |s| ==> IsWhitespace(s[k])
    ensures Trim(s) != [] ==> !IsWhitespace(Trim(s)[0]) && !IsWhitespace(Trim(s)[|Trim(s)| - 1])
  {
    i := TrimStartSpec(s);
    var t := s[i..];
    var m := TrimEndSpec(t);
    j := i + m;
    assert t[..m] == s[i..j];
    forall k | j <= k < |s|
      ensures IsWhitespace(s[k])
    {
      assert s[k] == t[k - i];
    }
    if m > 0 {
      assert t[0] == s[i];
    }
  }

  /** A text inside another at position `k` has each of its prefixes there too. */
  lemma InfixShrink(whole: string, k: nat, x: string, y: string)
    requires k + |x| <= |whole| && whole[k..k + |x|] == x
    requires y <= x
    ensures k + |y| <= |whole| && whole[k..k + |y|] == y
  {
    assert whole[k..k + |y|] == x[..|y|];
  }

  /** Concatenation is associative; stated once so that long texts need not be compared index by index. */
  lemma AppendAssoc(a: string, b: string, c: string)
    ensures (a + b) + c == a + (b + c)
  {
  }

  lemma PrefixOfAppend(a: string, b: string)
    ensures a <= a + b
  {
  }

  lemma SuffixOfAppend(a: string, b: string)
    ensures (a + b)[|a + b| - |b|..] == b
  {
  }

  /** A prefix stays one when both texts are put behind the same text. */
  lemma PrefixBehind(a: string, x: string, y: string)
    requires x <= y
    ensures a + x <= a + y
  {
  }

  /** In `a + b + c`, `a` is a prefix and `c` the suffix of its length. */
  lemma FrontAndBack(a: string, b: string, c: string)
    ensures a <= a + b + c
    ensures |c| <= |a + b + c| && (a + b + c)[|a + b + c| - |c|..] == c
  {
    assert (a + b + c)[..|a|] == a;
  }

  /** What follows a prefix `a` in the text is `b`, when `a + b` is a prefix of it. */
  lemma InfixOfPrefix(whole: string, a: string, b: string)
    requires a + b <= whole
    ensures |a| + |b| <= |whole| && whole[|a|..|a| + |b|] == b
  {
    assert whole[|a|..|a| + |b|] == (a + b)[|a|..];
  }

  lemma PrefixTrans(x: string, y: string, z: string)
    requires x <= y && y <= z
    ensures x <= z
  {
  }

  /** The renderings of `xs`, one after the other in order. */
  function ConcatMap<T>(xs: seq<T>, f: T -> string): string
  {
    if |xs| == 0 then "" else ConcatMap(xs[..|xs| - 1], f) + f(xs[|xs| - 1])
  }

  lemma {:induction false} ConcatMapAppend<T>(xs: seq<T>, ys: seq<T>, f: T -> string)
    ensures ConcatMap(xs + ys, f) == ConcatMap(xs, f) + ConcatMap(ys, f)
    decreases |ys|
  {
    if |ys| == 0 {
      assert xs + ys == xs;
    } else {
      var zs := xs + ys;
      assert zs[..|zs| - 1] == xs + ys[..|ys| - 1];
      assert zs[|zs| - 1] == ys[|ys| - 1];
      ConcatMapAppend(xs, ys[..|ys| - 1], f);
    }
  }

  /** Rendering one more item appends that item's rendering behind the text so far. */
  lemma ConcatMapPush<T>(front: string, xs: seq<T>, i: nat, f: T -> string)
    requires i < |xs|
    ensures front + ConcatMap(xs[..i], f) + f(xs[i]) == front + ConcatMap(xs[..i + 1], f)
  {
    assert xs[..i + 1][..i] == xs[..i];
    AppendAssoc(front, ConcatMap(xs[..i], f), f(xs[i]));
  }

  /**
   * Item `i` is rendered exactly once, after the renderings of the items
   * before it and before those of the items after it.
   */
  lemma {:induction false} ConcatMapAt<T>(xs: seq<T>, i: nat, f: T -> string)
    requires i < |xs|
    ensures ConcatMap(xs, f) == ConcatMap(xs[..i], f) + f(xs[i]) + ConcatMap(xs[i + 1..], f)
  {
    var pre, mid, post := xs[..i], [xs[i]], xs[i + 1..];
    assert xs == (pre + mid) + post;
    ConcatMapAppend(pre + mid, post, f);
    ConcatMapAppend(pre, mid, f);
    assert mid[..0] == [];
    assert ConcatMap(mid, f) == f(xs[i]);
  }
}
