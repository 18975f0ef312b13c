/**
 * The identifier detector: a global, case-insensitive scan for the
 * 8-4-4-4-12 hexadecimal form of section 4 of RFC 9562 (version and
 * variant digits are not checked), and `formatUUID`.
 */
module Uuid {
  import opened Strings
  import Seqs

  /** Length of the textual form. */
  const UuidLength := 36

  predicate IsHex(c: char) {
    ('0' <= c <= '9') || ('a' <= c <= 'f') || ('A' <= c <= 'F')
  }

  /** Offsets of the four hyphens in the textual form. */
  predicate IsHyphenOffset(k: int) {
    k == 8 || k == 13 || k == 18 || k == 23
  }

  /** `u` has the 8-4-4-4-12 shape, hex digits in either case. */
  predicate UuidShape(u: string) {
    |u| == UuidLength
    && forall k | 0 <= k < UuidLength :: if IsHyphenOffset(k) then u[k] == '-' else IsHex(u[k])
  }

  /** The shape occurs in `s` starting at `i`. */
  predicate ShapeAt(s: string, i: int) {
    0 <= i && i + UuidLength <= |s| && UuidShape(s[i..i + UuidLength])
  }

  datatype UuidMatch = UuidMatch(uuid: string, position: nat, context: string)

  /** How many characters of context precede position `i`. */
  function Before(i: nat): nat {
    if i >= 20 then 20 else i
  }

  /** `text.substring(max(0, i - 20), i + 40)`, clamped to the text. */
  function Context(s: string, i: nat): (r: string)
    requires i <= |s|
    ensures |r| <= 60
  {
    var lo := if i >= 20 then i - 20 else 0;
    var hi := if i + 40 <= |s| then i + 40 else |s|;
    s[lo..hi]
  }

  /**
   * The context is the up to 20 characters before `i` followed by the up
   * to 40 characters from `i`, clamped to the text.
   */
  lemma ContextWindow(s: string, i: nat)
    requires i <= |s|
    ensures var c := Context(s, i);
            && |c| == Before(i) + (if i + 40 <= |s| then 40 else |s| - i)
            && c[..Before(i)] == s[i - Before(i)..i]
            && c[Before(i)..] == s[i..if i + 40 <= |s| then i + 40 else |s|]
  {
    var c := Context(s, i);
    var hi := if i + 40 <= |s| then i + 40 else |s|;
    assert c == s[i - Before(i)..hi];
    assert c[..Before(i)] == s[i - Before(i)..i];
    assert c[Before(i)..] == s[i..hi];
  }

  /** An identifier at `i` appears in its context at offset `min(i, 20)`. */
  lemma ContextShowsMatch(s: string, i: nat)
    requires i + UuidLength <= |s|
    ensures var c := Context(s, i);
            Before(i) + UuidLength <= |c| && c[Before(i)..Before(i) + UuidLength] == s[i..i + UuidLength]
  {
    ContextWindow(s, i);
    var c := Context(s, i);
    assert c[Before(i)..Before(i) + UuidLength] == c[Before(i)..][..UuidLength];
  }

  /** A match reported at `i` is the text found there with its context. */
  predicate WellFormedMatch(s: string, m: UuidMatch) {
    ShapeAt(s, m.position) && m.uuid == s[m.position..m.position + UuidLength]
    && m.context == Context(s, m.position)
  }

  /** Matches are in strictly increasing, non-overlapping order. */
  predicate NonOverlapping(ms: seq<UuidMatch>) {
    forall k | 0 <= k < |ms| - 1 :: ms[k].position + UuidLength <= ms[k + 1].position
  }

  /**
   * The `exec` loop from `lastIndex == p`: leftmost match, resume after it.
   */
  function DetectFrom(s: string, p: nat): (r: seq<UuidMatch>)
    ensures forall k | 0 <= k < |r| :: p <= r[k].position && WellFormedMatch(s, r[k])
    ensures NonOverlapping(r)
    decreases |s| - p
  {
    if p + UuidLength > |s| then []
    else if ShapeAt(s, p) then
      [UuidMatch(s[p..p + UuidLength], p, Context(s, p))] + DetectFrom(s, p + UuidLength)
    else DetectFrom(s, p + 1)
  }

  /** `detectUUIDs(text)`. */
  function Detect(s: string): (r: seq<UuidMatch>)
    ensures forall k | 0 <= k < |r| :: WellFormedMatch(s, r[k]) && UuidShape(r[k].uuid)
    ensures NonOverlapping(r)
  {
    DetectFrom(s, 0)
  }

  /** The match at index `k` covers text position `j`. */
  predicate Covers(ms: seq<UuidMatch>, j: int) {
    exists k | 0 <= k < |ms| :: ms[k].position <= j < ms[k].position + UuidLength
  }

  /**
   * Leftmost-first completeness: every position at or after `p` where the
   * shape occurs is inside some reported match.
   */
  lemma {:induction false} DetectFromComplete(s: string, p: nat, j: int)
    requires p <= j && ShapeAt(s, j)
    ensures Covers(DetectFrom(s, p), j)
    decreases |s| - p
  {
    var r := DetectFrom(s, p);
    if ShapeAt(s, p) {
      if j < p + UuidLength {
        assert r[0].position == p;
      } else {
        DetectFromComplete(s, p + UuidLength, j);
        var rest := DetectFrom(s, p + UuidLength);
        var k :| 0 <= k < |rest| && rest[k].position <= j < rest[k].position + UuidLength;
        assert r[k + 1] == rest[k];
      }
    } else {
      DetectFromComplete(s, p + 1, j);
    }
  }

  /** Every shape position in the text is inside a reported match. */
  lemma DetectComplete(s: string, j: int)
    requires ShapeAt(s, j)
    ensures Covers(Detect(s), j)
  {
    DetectFromComplete(s, 0, j);
  }

  /** Text without the shape anywhere yields no matches. */
  lemma {:induction false} DetectFromNone(s: string, p: nat)
    requires forall j | p <= j :: !ShapeAt(s, j)
    ensures DetectFrom(s, p) == []
    decreases |s| - p
  {
    if p + UuidLength <= |s| {
      DetectFromNone(s, p + 1);
    }
  }

  /** `extractUUIDsFromURL(url)`: the identifiers found, as text, in order. */
  function ExtractFromUrl(url: string): (r: seq<string>)
    ensures |r| == |Detect(url)|
    ensures forall k | 0 <= k < |r| ::
              UuidShape(r[k]) && OccursAt(url, r[k], Detect(url)[k].position)
  {
    var ms := Detect(url);
    seq(|ms|, k requires 0 <= k < |ms| => ms[k].uuid)
  }

  // ---------------------------------------------------------------------
  // formatUUID
  // ---------------------------------------------------------------------

  /** `uuid.replace(/-/g, "").toLowerCase()`. */
  function Clean(u: string): (r: string)
    ensures '-' !in r
  {
    var c := Lower(RemoveChar(u, '-'));
    assert forall i | 0 <= i < |c| :: c[i] != '-';
    c
  }

  /**
   * Cleaning keeps every character but the hyphens, in order and as often
   * as it occurs, and lower-cases each one.
   */
  lemma CleanKeepsOthers(u: string)
    ensures var kept := RemoveChar(u, '-');
            && Seqs.IsSubsequence(kept, u)
            && multiset(kept) == multiset(u)['-' := 0]
            && |Clean(u)| == |kept|
            && forall i | 0 <= i < |kept| :: Clean(u)[i] == LowerChar(kept[i])
    ensures |Clean(u)| == |u| - multiset(u)['-']
  {
    var kept := RemoveChar(u, '-');
    RemoveCharKeepsOrder(u, '-');
    RemoveCharCounts(u, '-');
    assert |kept| == |multiset(kept)|;
    assert |u| == |multiset(u)|;
    assert multiset(u) == multiset(u)['-' := 0] + multiset{}['-' := multiset(u)['-']];
  }

  /** `formatUUID` input "AB-c" cleans to "abc". */
  lemma CleanExample()
    ensures Clean("AB-c") == "abc"
  {
    StripExample();
    LowerExample();
  }

  lemma StripExample()
    ensures RemoveChar("AB-c", '-') == "ABc"
  {
    assert "AB-c" == "AB" + "-" + "c";
    RemoveCharAbsent("AB", '-');
    RemoveCharAbsent("c", '-');
    RemoveHyphenJoin("AB", "c");
  }

  lemma LowerExample()
    ensures Lower("ABc") == "abc"
  {
    assert LowerChar('A') == 'a' && LowerChar('B') == 'b' && LowerChar('c') == 'c';
  }

  /** The 8-4-4-4-12 layout of a 32-character string. */
  function Hyphenate(c: string): (r: string)
    requires |c| == 32
  {
    c[0..8] + "-" + c[8..12] + "-" + c[12..16] + "-" + c[16..20] + "-" + c[20..]
  }

  /** `formatUUID(uuid)`. */
  function FormatUuid(u: string): (r: string)
    ensures |Clean(u)| != 32 ==> r == u
    ensures |Clean(u)| == 32 ==>
              |r| == UuidLength
              && (forall k | 0 <= k < UuidLength :: (r[k] == '-') <==> IsHyphenOffset(k))
  {
    var c := Clean(u);
    if |c| != 32 then u else Hyphenate(c)
  }

  /** Five groups joined by hyphens. */
  function Dashed(a: string, b: string, d: string, e: string, f: string): string {
    a + "-" + b + "-" + d + "-" + e + "-" + f
  }

  lemma RemoveHyphenJoin(x: string, y: string)
    ensures RemoveChar(x + "-" + y, '-') == RemoveChar(x, '-') + RemoveChar(y, '-')
  {
    RemoveCharAppend(x + "-", y, '-');
    RemoveCharAppend(x, "-", '-');
  }

  /** Stripping the hyphens of hyphen-free groups joined by hyphens concatenates the groups. */
  lemma DashedStrip(a: string, b: string, d: string, e: string, f: string)
    requires '-' !in a && '-' !in b && '-' !in d && '-' !in e && '-' !in f
    ensures RemoveChar(Dashed(a, b, d, e, f), '-') == a + b + d + e + f
  {
    RemoveCharAbsent(a, '-');
    RemoveCharAbsent(b, '-');
    RemoveCharAbsent(d, '-');
    RemoveCharAbsent(e, '-');
    RemoveCharAbsent(f, '-');
    RemoveHyphenJoin(a, b);
    RemoveHyphenJoin(a + "-" + b, d);
    RemoveHyphenJoin(a + "-" + b + "-" + d, e);
    RemoveHyphenJoin(a + "-" + b + "-" + d + "-" + e, f);
  }

  /** Hyphenating five concatenated groups of sizes 8, 4, 4, 4, 12 puts hyphens between them. */
  lemma HyphenateGroups(a: string, b: string, d: string, e: string, f: string)
    requires |a| == 8 && |b| == 4 && |d| == 4 && |e| == 4 && |f| == 12
    ensures Hyphenate(a + b + d + e + f) == Dashed(a, b, d, e, f)
  {
    var c := a + b + d + e + f;
    assert c[0..8] == a;
    assert c[8..12] == b;
    assert c[12..16] == d;
    assert c[16..20] == e;
    assert c[20..] == f;
  }

  /** Stripping the hyphens of a hyphenated string gives back its 32 characters. */
  lemma HyphenateRoundTrip(c: string)
    requires |c| == 32 && '-' !in c
    ensures RemoveChar(Hyphenate(c), '-') == c
  {
    var a, b, d, e, f := c[0..8], c[8..12], c[12..16], c[16..20], c[20..];
    assert c == a + b + d + e + f;
    assert '-' !in a && '-' !in b && '-' !in d && '-' !in e && '-' !in f;
    HyphenateGroups(a, b, d, e, f);
    DashedStrip(a, b, d, e, f);
  }

  /** On a 32-character input, stripping hyphens from the output gives back the cleaned input. */
  lemma FormatUuidStripsBack(u: string)
    requires |Clean(u)| == 32
    ensures RemoveChar(FormatUuid(u), '-') == Clean(u)
  {
    HyphenateRoundTrip(Clean(u));
  }

  /** `formatUUID` is idempotent. */
  lemma FormatUuidIdempotent(u: string)
    ensures FormatUuid(FormatUuid(u)) == FormatUuid(u)
  {
    var c := Clean(u);
    if |c| == 32 {
      HyphenateRoundTrip(c);
      assert Lower(c) == c by {
        LowerIdempotent(RemoveChar(u, '-'));
      }
    }
  }

  /** A string of the identifier shape is its five hex groups joined by hyphens. */
  lemma ShapeGroups(u: string)
    requires UuidShape(u)
    ensures u == Dashed(u[0..8], u[9..13], u[14..18], u[19..23], u[24..])
    ensures '-' !in u[0..8] && '-' !in u[9..13] && '-' !in u[14..18] && '-' !in u[19..23] && '-' !in u[24..]
  {
    assert u[8] == '-' && u[13] == '-' && u[18] == '-' && u[23] == '-';
    assert u == u[0..8] + [u[8]] + u[9..13] + [u[13]] + u[14..18] + [u[18]] + u[19..23] + [u[23]] + u[24..];
    forall k | 0 <= k < 36 && !IsHyphenOffset(k) ensures u[k] != '-' {
      assert IsHex(u[k]);
    }
  }

  lemma LowerDashed(a: string, b: string, d: string, e: string, f: string)
    ensures Lower(Dashed(a, b, d, e, f)) == Dashed(Lower(a), Lower(b), Lower(d), Lower(e), Lower(f))
  {
    LowerAppend(a + "-" + b + "-" + d + "-" + e + "-", f);
    LowerAppend(a + "-" + b + "-" + d + "-" + e, "-");
    LowerAppend(a + "-" + b + "-" + d + "-", e);
    LowerAppend(a + "-" + b + "-" + d, "-");
    LowerAppend(a + "-" + b + "-", d);
    LowerAppend(a + "-" + b, "-");
    LowerAppend(a + "-", b);
    LowerAppend(a, "-");
    assert Lower("-") == "-";
  }

  lemma LowerGroups(a: string, b: string, d: string, e: string, f: string)
    ensures Lower(a + b + d + e + f) == Lower(a) + Lower(b) + Lower(d) + Lower(e) + Lower(f)
  {
    LowerAppend(a + b + d + e, f);
    LowerAppend(a + b + d, e);
    LowerAppend(a + b, d);
    LowerAppend(a, b);
  }

  /** Every detected identifier is rendered by `formatUUID` as its lower-case form. */
  lemma FormatUuidOfShape(u: string)
    requires UuidShape(u)
    ensures FormatUuid(u) == Lower(u)
  {
    var a, b, d, e, f := u[0..8], u[9..13], u[14..18], u[19..23], u[24..];
    ShapeGroups(u);
    DashedStrip(a, b, d, e, f);
    LowerGroups(a, b, d, e, f);
    var c := Clean(u);
    assert c == Lower(a) + Lower(b) + Lower(d) + Lower(e) + Lower(f);
    HyphenateGroups(Lower(a), Lower(b), Lower(d), Lower(e), Lower(f));
    LowerDashed(a, b, d, e, f);
  }
}
