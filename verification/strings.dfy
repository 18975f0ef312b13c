/**
 * The JavaScript string operations the panel relies on, over `seq<char>`:
 * ASCII case mapping, `includes`/`indexOf`/`startsWith`/`endsWith`, `trim`,
 * `||` on strings, decimal rendering of numbers, `join` and `replace`.
 */
module Strings {
  import Seqs

  // ---------------------------------------------------------------------
  // Case mapping (ASCII only: length-preserving)
  // ---------------------------------------------------------------------

  function LowerChar(c: char): char {
    if 'A' <= c <= 'Z' then (c as int + 32) as char else c
  }

  function UpperChar(c: char): char {
    if 'a' <= c <= 'z' then (c as int - 32) as char else c
  }

  /** `s.toLowerCase()` restricted to ASCII letters. */
  function Lower(s: string): (r: string)
    ensures |r| == |s|
    ensures forall i :: 0 <= i < |s| ==> r[i] == LowerChar(s[i])
  {
    seq(|s|, i requires 0 <= i < |s| => LowerChar(s[i]))
  }

  /** `s.toUpperCase()` restricted to ASCII letters. */
  function Upper(s: string): (r: string)
    ensures |r| == |s|
    ensures forall i :: 0 <= i < |s| ==> r[i] == UpperChar(s[i])
  {
    seq(|s|, i requires 0 <= i < |s| => UpperChar(s[i]))
  }

  lemma LowerIdempotent(s: string)
    ensures Lower(Lower(s)) == Lower(s)
  {
  }

  lemma LowerAppend(a: string, b: string)
    ensures Lower(a + b) == Lower(a) + Lower(b)
  {
  }

  // ---------------------------------------------------------------------
  // Truthiness
  // ---------------------------------------------------------------------

  /** `s || fallback` for a string operand: the empty string is falsy. */
  function Or(s: string, fallback: string): string {
    if s != "" then s else fallback
  }

  // ---------------------------------------------------------------------
  // Substring search
  // ---------------------------------------------------------------------

  /** `q` occurs in `s` starting at index `i`. */
  predicate OccursAt(s: string, q: string, i: int) {
    0 <= i && i + |q| <= |s| && s[i..i + |q|] == q
  }

  /** `s.includes(q)`. */
  predicate Includes(s: string, q: string) {
    exists i | 0 <= i <= |s| - |q| :: OccursAt(s, q, i)
  }

  function StartsWith(s: string, p: string): bool {
    |p| <= |s| && s[..|p|] == p
  }

  function EndsWith(s: string, p: string): bool {
    |p| <= |s| && s[|s| - |p|..] == p
  }

  lemma StartsWithAppend(a: string, b: string)
    ensures StartsWith(a + b, a)
  {
    assert (a + b)[..|a|] == a;
  }

  lemma EndsWithAppend(a: string, b: string)
    ensures EndsWith(a + b, b)
  {
    assert (a + b)[|a|..] == b;
  }

  /**
   * `s.indexOf(q, from)`: the first index at or after `from` where `q`
   * occurs, or -1 when there is none.
   */
  function IndexOf(s: string, q: string, from: nat): (r: int)
    ensures r == -1 || (from <= r && OccursAt(s, q, r))
    ensures r == -1 ==> forall i :: from <= i ==> !OccursAt(s, q, i)
    ensures r != -1 ==> forall i :: from <= i < r ==> !OccursAt(s, q, i)
    decreases |s| - from
  {
    if from + |q| > |s| then -1
    else if s[from..from + |q|] == q then from
    else IndexOf(s, q, from + 1)
  }

  /** `includes` is exactly "indexOf from 0 finds something". */
  lemma IncludesIffIndexOf(s: string, q: string)
    ensures Includes(s, q) <==> IndexOf(s, q, 0) != -1
  {
    var r := IndexOf(s, q, 0);
    if r != -1 {
      assert OccursAt(s, q, r);
    }
  }

  // ---------------------------------------------------------------------
  // Whitespace and trim
  // ---------------------------------------------------------------------

  /** The characters `String.prototype.trim` removes (WhiteSpace and LineTerminator). */
  predicate IsSpace(c: char) {
    || c == ' ' || c == '\t' || c == '\n' || c == '\r'
    || c == '\U{000B}' || c == '\U{000C}' || c == '\U{00A0}' || c == '\U{1680}'
    || ('\U{2000}' <= c <= '\U{200A}')
    || c == '\U{2028}' || c == '\U{2029}' || c == '\U{202F}' || c == '\U{205F}'
    || c == '\U{3000}' || c == '\U{FEFF}'
  }

  /** Every character of `s` is whitespace (so `s.trim()` is empty). */
  predicate IsBlank(s: string) {
    forall i | 0 <= i < |s| :: IsSpace(s[i])
  }

  function TrimStart(s: string): (r: string)
    ensures |r| <= |s| && r == s[|s| - |r|..]
    ensures r == [] || !IsSpace(r[0])
    ensures IsBlank(s[..|s| - |r|])
  {
    if |s| > 0 && IsSpace(s[0]) then
      var r := TrimStart(s[1..]);
      BlankCons(s, |r|);
      r
    else s
  }

  /** A space followed by a blank prefix of the tail is a blank prefix. */
  lemma BlankCons(s: string, n: nat)
    requires |s| > 0 && IsSpace(s[0]) && n <= |s| - 1
    requires IsBlank(s[1..][..|s| - 1 - n])
    ensures s[1..][|s| - 1 - n..] == s[|s| - n..]
    ensures IsBlank(s[..|s| - n])
  {
    var pre := s[..|s| - n];
    var tail := s[1..][..|s| - 1 - n];
    forall i | 0 <= i < |pre| ensures IsSpace(pre[i]) {
      if i > 0 {
        assert pre[i] == tail[i - 1];
      }
    }
  }

  function TrimEnd(s: string): (r: string)
    ensures |r| <= |s| && r == s[..|r|]
    ensures r == [] || !IsSpace(r[|r| - 1])
    ensures IsBlank(s[|r|..])
  {
    if |s| > 0 && IsSpace(s[|s| - 1]) then
      var r := TrimEnd(s[..|s| - 1]);
      assert s[..|s| - 1][..|r|] == s[..|r|];
      var post := s[|r|..];
      assert IsBlank(post) by {
        forall i | 0 <= i < |post| ensures IsSpace(post[i]) {
          if i < |s| - 1 - |r| {
            assert post[i] == s[..|s| - 1][|r|..][i];
          }
        }
      }
      r
    else s
  }

  /** `s.trim()`. */
  function Trim(s: string): (r: string)
  {
    TrimEnd(TrimStart(s))
  }

  /** `s.trim()` is empty exactly when `s` consists of whitespace only. */
  lemma {:induction false} TrimEmptyIffBlank(s: string)
    ensures Trim(s) == "" <==> IsBlank(s)
  {
    var t := TrimStart(s);
    if Trim(s) == "" {
      assert t[0..] == t;
      assert IsBlank(t[0..]);
      assert t == [];
      assert s[..|s| - |t|] == s;
    } else {
      var r := Trim(s);
      assert r == TrimEnd(t) && r == t[..|r|];
      assert !IsSpace(r[|r| - 1]);
      assert s[|s| - |t| + |r| - 1] == r[|r| - 1];
    }
  }

  /** A query is "blank" to the source (`!q || !q.trim()`). */
  predicate BlankQuery(q: string) {
    q == "" || Trim(q) == ""
  }

  lemma NonBlankQueryNonEmpty(q: string)
    requires !BlankQuery(q)
    ensures |q| > 0
  {
  }

  // ---------------------------------------------------------------------
  // Decimal rendering
  // ---------------------------------------------------------------------

  function DigitChar(d: nat): char
    requires d < 10
  {
    ('0' as int + d) as char
  }

  /** `n.toString()` for a non-negative integer. */
  function NatToString(n: nat): (r: string)
    ensures |r| >= 1
    ensures forall i | 0 <= i < |r| :: '0' <= r[i] <= '9'
  {
    if n < 10 then [DigitChar(n)] else NatToString(n / 10) + [DigitChar(n % 10)]
  }

  /** The decimal string has exactly three characters iff the number is in 100..999. */
  lemma {:induction false} NatToStringLength3(n: nat)
    ensures |NatToString(n)| == 3 <==> 100 <= n <= 999
  {
    if n < 10 {
    } else if n < 100 {
      assert |NatToString(n / 10)| == 1;
    } else if n < 1000 {
      assert |NatToString(n / 100)| == 1;
      assert |NatToString(n / 10)| == 2;
    } else {
      NatToStringAtLeast4(n);
    }
  }

  lemma {:induction false} NatToStringAtLeast4(n: nat)
    requires n >= 1000
    ensures |NatToString(n)| >= 4
  {
    if n / 10 >= 1000 {
      NatToStringAtLeast4(n / 10);
    } else {
      var m := n / 10;
      assert 100 <= m < 1000;
      assert |NatToString(m / 10)| == 2 by {
        assert |NatToString(m / 100)| == 1;
      }
    }
  }

  /** For a three-digit number the leading character is its hundreds digit. */
  lemma NatToStringThreeDigits(n: nat)
    requires 100 <= n <= 999
    ensures NatToString(n) == [DigitChar(n / 100), DigitChar(n / 10 % 10), DigitChar(n % 10)]
  {
    assert NatToString(n / 10) == [DigitChar(n / 100), DigitChar(n / 10 % 10)] by {
      assert n / 10 / 10 == n / 100;
    }
  }

  // ---------------------------------------------------------------------
  // join and replace
  // ---------------------------------------------------------------------

  /** `parts.join(sep)`. */
  function Join(parts: seq<string>, sep: string): string {
    if |parts| == 0 then ""
    else if |parts| == 1 then parts[0]
    else parts[0] + sep + Join(parts[1..], sep)
  }

  /** Joining one more part appends the separator and that part. */
  lemma {:induction false} JoinSnoc(parts: seq<string>, x: string, sep: string)
    requires |parts| > 0
    ensures Join(parts + [x], sep) == Join(parts, sep) + sep + x
  {
    if |parts| > 1 {
      JoinSnoc(parts[1..], x, sep);
      assert (parts + [x])[1..] == parts[1..] + [x];
    }
  }

  /** `s.split(c)` for a one-character separator. */
  function Split(s: string, c: char): (r: seq<string>)
    ensures |r| > 0
  {
    if |s| == 0 then [""]
    else
      var tail := Split(s[1..], c);
      if s[0] == c then [""] + tail else [[s[0]] + tail[0]] + tail[1..]
  }

  lemma {:induction false} SplitAt(a: string, b: string, c: char)
    requires c !in a
    ensures Split(a + [c] + b, c) == [a] + Split(b, c)
  {
    if |a| == 0 {
      assert a + [c] + b == [c] + b;
      assert ([c] + b)[1..] == b;
    } else {
      SplitAt(a[1..], b, c);
      assert (a + [c] + b)[1..] == a[1..] + [c] + b;
      assert [a[0]] + a[1..] == a;
    }
  }

  lemma {:induction false} SplitNoSeparator(a: string, c: char)
    requires c !in a
    ensures Split(a, c) == [a]
  {
    if |a| > 0 {
      SplitNoSeparator(a[1..], c);
      assert [a[0]] + a[1..] == a;
    }
  }

  /** Splitting a join by a separator that no part contains gives the parts back. */
  lemma {:induction false} SplitJoin(parts: seq<string>, c: char)
    requires |parts| > 0
    requires forall k | 0 <= k < |parts| :: c !in parts[k]
    ensures Split(Join(parts, [c]), c) == parts
  {
    if |parts| == 1 {
      SplitNoSeparator(parts[0], c);
    } else {
      SplitJoin(parts[1..], c);
      SplitAt(parts[0], Join(parts[1..], [c]), c);
      assert [parts[0]] + parts[1..] == parts;
    }
  }

  /** `s.replace(pat, rep)` with a string pattern: only the first occurrence is replaced. */
  function ReplaceFirst(s: string, pat: string, rep: string): (r: string)
    ensures !Includes(s, pat) ==> r == s
  {
    var i := IndexOf(s, pat, 0);
    IncludesIffIndexOf(s, pat);
    if i == -1 then s else s[..i] + rep + s[i + |pat|..]
  }

  /** Every occurrence of `c` in `s` replaced by `rep` (`s.replace(/c/g, rep)`). */
  function ReplaceAllChar(s: string, c: char, rep: string): string {
    if |s| == 0 then ""
    else (if s[0] == c then rep else [s[0]]) + ReplaceAllChar(s[1..], c, rep)
  }

  /** `s` with every `c` removed (`s.replace(/c/g, "")`). */
  function RemoveChar(s: string, c: char): (r: string)
    ensures c !in r
    ensures |r| <= |s|
  {
    if |s| == 0 then ""
    else (if s[0] == c then "" else [s[0]]) + RemoveChar(s[1..], c)
  }

  /** Every character other than `c` is kept as often as it occurs; `c` not at all. */
  lemma {:induction false} RemoveCharCounts(s: string, c: char)
    ensures multiset(RemoveChar(s, c)) == multiset(s)[c := 0]
  {
    if |s| > 0 {
      RemoveCharCounts(s[1..], c);
      assert s == [s[0]] + s[1..];
    }
  }

  /** The characters other than `c` stay in their order. */
  lemma {:induction false} RemoveCharKeepsOrder(s: string, c: char)
    ensures Seqs.IsSubsequence(RemoveChar(s, c), s)
  {
    if |s| > 0 {
      RemoveCharKeepsOrder(s[1..], c);
      if s[0] == c {
        assert RemoveChar(s, c) == RemoveChar(s[1..], c);
        Seqs.SubsequenceOfTail(RemoveChar(s, c), s);
      } else {
        assert RemoveChar(s, c)[1..] == RemoveChar(s[1..], c);
      }
    }
  }

  lemma {:induction false} RemoveCharAppend(a: string, b: string, c: char)
    ensures RemoveChar(a + b, c) == RemoveChar(a, c) + RemoveChar(b, c)
  {
    if |a| == 0 {
      assert a + b == b;
    } else {
      assert (a + b)[1..] == a[1..] + b;
      RemoveCharAppend(a[1..], b, c);
    }
  }

  lemma {:induction false} RemoveCharAbsent(s: string, c: char)
    requires c !in s
    ensures RemoveChar(s, c) == s
  {
    if |s| > 0 {
      RemoveCharAbsent(s[1..], c);
    }
  }

  /**
   * `s.substring(a, b)`: both ends clamped to the string, and swapped when
   * the start is past the end.
   */
  function Substring(s: string, a: int, b: int): (r: string)
    ensures |r| <= |s|
  {
    var lo := if a < 0 then 0 else if a > |s| then |s| else a;
    var hi := if b < 0 then 0 else if b > |s| then |s| else b;
    if lo <= hi then s[lo..hi] else s[hi..lo]
  }

  // ---------------------------------------------------------------------
  // Code-unit order
  // ---------------------------------------------------------------------

  /** `a` is not after `b` in code-unit lexicographic order. */
  predicate LexLe(a: string, b: string)
    decreases |a|
  {
    |a| == 0 || (|b| > 0 && (a[0] < b[0] || (a[0] == b[0] && LexLe(a[1..], b[1..]))))
  }

  lemma {:induction false} LexLeTotal(a: string, b: string)
    ensures LexLe(a, b) || LexLe(b, a)
    decreases |a|
  {
    if |a| > 0 && |b| > 0 && a[0] == b[0] {
      LexLeTotal(a[1..], b[1..]);
    }
  }

  lemma {:induction false} LexLeTrans(a: string, b: string, c: string)
    requires LexLe(a, b) && LexLe(b, c)
    ensures LexLe(a, c)
    decreases |a|
  {
    if |a| > 0 && a[0] == b[0] && b[0] == c[0] {
      LexLeTrans(a[1..], b[1..], c[1..]);
    }
  }

  lemma {:induction false} LexLeAntisymmetric(a: string, b: string)
    requires LexLe(a, b) && LexLe(b, a)
    ensures a == b
    decreases |a|
  {
    if |a| > 0 {
      LexLeAntisymmetric(a[1..], b[1..]);
      assert a == [a[0]] + a[1..] && b == [b[0]] + b[1..];
    }
  }
}
