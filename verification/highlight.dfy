/**
 * The highlight segmenter that the detail tabs and the JSON viewer each
 * carry a copy of: the case-insensitive literal regex scan, the merge of
 * identifier and search spans, the stable sort by position, the drop of
 * spans overlapping an earlier one, the gap/span segments that rebuild the
 * text, and the wrap-around result navigation.
 */
module Highlight {
  import opened Strings
  import opened Seqs
  import opened Sorting
  import Uuid

  // ---------------------------------------------------------------------
  // The regex scan: `new RegExp(escaped query, "gi")` and its exec loop
  // ---------------------------------------------------------------------

  /**
   * The exec loop from `lastIndex == from`, over the lower-cased text `h`
   * and query `q`. The escaped query is a literal pattern, so each exec
   * finds the leftmost case-insensitive occurrence and the next one resumes
   * at its end: matches never overlap.
   */
  function RegexFrom(h: string, q: string, from: nat): (r: seq<nat>)
    requires |q| > 0
    ensures forall k | 0 <= k < |r| :: from <= r[k] && OccursAt(h, q, r[k])
    ensures forall k | 0 <= k < |r| - 1 :: r[k] + |q| <= r[k + 1]
    decreases |h| - from
  {
    var i := IndexOf(h, q, from);
    if i == -1 then [] else [i as nat] + RegexFrom(h, q, i + |q|)
  }

  /** The match positions of the query in the text, case-insensitively. */
  function RegexMatches(text: string, query: string): (r: seq<nat>)
    requires |query| > 0
    ensures forall k | 0 <= k < |r| :: r[k] + |query| <= |text|
  {
    RegexFrom(Lower(text), Lower(query), 0)
  }

  /** Match `k` covers text position `j`. */
  predicate CoversAt(ps: seq<nat>, len: nat, j: int) {
    exists k | 0 <= k < |ps| :: ps[k] <= j < ps[k] + len
  }

  /**
   * Leftmost-first completeness: every occurrence at or after `from` lies
   * inside a reported match (it is that match or overlaps an earlier one).
   */
  lemma {:induction false} RegexComplete(h: string, q: string, from: nat, j: int)
    requires |q| > 0 && from <= j && OccursAt(h, q, j)
    ensures CoversAt(RegexFrom(h, q, from), |q|, j)
    decreases |h| - from
  {
    var i := IndexOf(h, q, from);
    assert from <= i <= j;
    var rest := RegexFrom(h, q, i + |q|);
    assert RegexFrom(h, q, from) == [i as nat] + rest;
    if j >= i + |q| {
      RegexComplete(h, q, i + |q|, j);
    }
    CoversCons(i as nat, rest, |q|, j);
  }

  /** A position covered by `ps`, or by a new first match, is covered by both together. */
  lemma CoversCons(i: nat, ps: seq<nat>, len: nat, j: int)
    requires CoversAt(ps, len, j) || i <= j < i + len
    ensures CoversAt([i] + ps, len, j)
  {
    var r := [i] + ps;
    if i <= j < i + len {
      assert r[0] == i;
    } else {
      var k :| 0 <= k < |ps| && ps[k] <= j < ps[k] + len;
      assert r[k + 1] == ps[k];
    }
  }

  /**
   * The regex scan reports every case-insensitive occurrence of the query
   * or one overlapping it, and nothing else; matches never overlap.
   */
  lemma RegexMatchesExact(text: string, query: string)
    requires |query| > 0
    ensures var r := RegexMatches(text, query);
            && (forall k | 0 <= k < |r| :: OccursAt(Lower(text), Lower(query), r[k]))
            && (forall k | 0 <= k < |r| - 1 :: r[k] + |query| <= r[k + 1])
            && (forall j | OccursAt(Lower(text), Lower(query), j) :: CoversAt(r, |query|, j))
  {
    forall j | OccursAt(Lower(text), Lower(query), j)
      ensures CoversAt(RegexMatches(text, query), |query|, j)
    {
      RegexComplete(Lower(text), Lower(query), 0, j);
    }
  }

  // ---------------------------------------------------------------------
  // Spans
  // ---------------------------------------------------------------------

  datatype SpanKind = UuidSpan | SearchSpan

  /**
   * One highlight candidate. Identifier spans carry index -1; search spans
   * carry their rank among the regex matches.
   */
  datatype Span = Span(position: nat, length: nat, text: string, kind: SpanKind, matchIndex: int)

  /** The span's text is the text found at its position. */
  predicate SpanIn(text: string, s: Span) {
    s.position + s.length <= |text| && s.text == text[s.position..s.position + s.length]
  }

  predicate AllIn(text: string, spans: seq<Span>) {
    forall k | 0 <= k < |spans| :: SpanIn(text, spans[k]) && spans[k].length > 0
  }

  /** The search spans of `searchText && searchText.trim()`; the query itself is not trimmed. */
  function SearchSpans(text: string, query: string): (r: seq<Span>)
    ensures BlankQuery(query) ==> r == []
    ensures !BlankQuery(query) ==>
              && |query| > 0
              && |r| == |RegexMatches(text, query)|
              && forall k | 0 <= k < |r| ::
                   && r[k].position == RegexMatches(text, query)[k]
                   && r[k].length == |query| && r[k].kind == SearchSpan && r[k].matchIndex == k
    ensures AllIn(text, r)
  {
    if BlankQuery(query) then []
    else
      NonBlankQueryNonEmpty(query);
      Numbered(text, |query|, RegexMatches(text, query))
  }

  /** Search spans of length `len` at `ps`, numbered 0, 1, 2, ... */
  function Numbered(text: string, len: nat, ps: seq<nat>): (r: seq<Span>)
    requires len > 0 && forall k | 0 <= k < |ps| :: ps[k] + len <= |text|
    ensures |r| == |ps|
    ensures forall k | 0 <= k < |r| ::
              r[k].position == ps[k] && r[k].length == len && r[k].kind == SearchSpan && r[k].matchIndex == k
    ensures AllIn(text, r)
  {
    seq(|ps|, k requires 0 <= k < |ps| => Span(ps[k], len, text[ps[k]..ps[k] + len], SearchSpan, k))
  }

  /** The identifier spans, one per detected identifier, index -1. */
  function UuidSpans(text: string): (r: seq<Span>)
    ensures |r| == |Uuid.Detect(text)|
    ensures forall k | 0 <= k < |r| ::
              && r[k].position == Uuid.Detect(text)[k].position
              && r[k].kind == UuidSpan && r[k].matchIndex == -1
    ensures AllIn(text, r)
  {
    var ms := Uuid.Detect(text);
    seq(|ms|, k requires 0 <= k < |ms| => Span(ms[k].position, Uuid.UuidLength, ms[k].uuid, UuidSpan, -1))
  }

  /** The comparator `(a, b) => a.position - b.position`, as "not after". */
  const ByPosition := (a: Span, b: Span) => a.position <= b.position

  lemma ByPositionTotalPreorder()
    ensures TotalPreorder(ByPosition)
  {
  }

  /** `[...uuidMatches, ...searchMatches].sort(byPosition)`. */
  function Candidates(text: string, query: string): (r: seq<Span>)
    ensures AllIn(text, r)
    ensures multiset(r) == multiset(UuidSpans(text) + SearchSpans(text, query))
    ensures SortedBy(r, ByPosition)
  {
    var all := UuidSpans(text) + SearchSpans(text, query);
    var r := SortBy(all, ByPosition);
    SortByPermutation(all, ByPosition);
    ByPositionTotalPreorder();
    SortBySorted(all, ByPosition);
    AllInAppend(text, UuidSpans(text), SearchSpans(text, query));
    AllInPermutation(text, r, all);
    r
  }

  lemma AllInAppend(text: string, a: seq<Span>, b: seq<Span>)
    requires AllIn(text, a) && AllIn(text, b)
    ensures AllIn(text, a + b)
  {
    forall k | 0 <= k < |a + b| ensures SpanIn(text, (a + b)[k]) && (a + b)[k].length > 0 {
      if k >= |a| {
        assert (a + b)[k] == b[k - |a|];
      }
    }
  }

  lemma AllInPermutation(text: string, r: seq<Span>, all: seq<Span>)
    requires multiset(r) == multiset(all) && AllIn(text, all)
    ensures AllIn(text, r)
  {
    forall k | 0 <= k < |r| ensures SpanIn(text, r[k]) && r[k].length > 0 {
      assert r[k] in multiset(all);
      var j :| 0 <= j < |all| && all[j] == r[k];
    }
  }

  /** The spans starting at `p`. */
  function StartsAt(p: nat): Span -> bool {
    (s: Span) => s.position == p
  }

  /**
   * Ties keep input order: at any position, the identifier spans there come
   * first, then the search spans there.
   */
  lemma CandidatesTies(text: string, query: string, p: nat)
    ensures Filter(Candidates(text, query), StartsAt(p))
            == Filter(UuidSpans(text), StartsAt(p)) + Filter(SearchSpans(text, query), StartsAt(p))
  {
    var all := UuidSpans(text) + SearchSpans(text, query);
    var y := Span(p, 0, "", UuidSpan, -1);
    ByPositionTotalPreorder();
    SortByStable(all, ByPosition, y);
    EquivalentIsStartsAt(SortBy(all, ByPosition), p);
    EquivalentIsStartsAt(all, p);
    FilterAppend(UuidSpans(text), SearchSpans(text, query), StartsAt(p));
  }

  /** Under `ByPosition`, being equivalent to a span at `p` is starting at `p`. */
  lemma EquivalentIsStartsAt(s: seq<Span>, p: nat)
    ensures Filter(s, EquivTo(ByPosition, Span(p, 0, "", UuidSpan, -1))) == Filter(s, StartsAt(p))
  {
    FilterExt(s, EquivTo(ByPosition, Span(p, 0, "", UuidSpan, -1)), StartsAt(p));
  }

  // ---------------------------------------------------------------------
  // Segments
  // ---------------------------------------------------------------------

  /** A rendered part: plain text, or a highlighted span. */
  datatype Segment = Gap(s: string) | Mark(span: Span)

  function SegmentText(g: Segment): string {
    match g
    case Gap(s) => s
    case Mark(sp) => sp.text
  }

  /** The text a sequence of segments displays. */
  function Concat(gs: seq<Segment>): string {
    if |gs| == 0 then "" else SegmentText(gs[0]) + Concat(gs[1..])
  }

  lemma {:induction false} ConcatAppend(a: seq<Segment>, b: seq<Segment>)
    ensures Concat(a + b) == Concat(a) + Concat(b)
  {
    if |a| == 0 {
      assert a + b == b;
    } else {
      assert (a + b)[1..] == a[1..] + b;
      ConcatAppend(a[1..], b);
    }
  }

  /** The highlighted spans, in display order. */
  function Marks(gs: seq<Segment>): seq<Span> {
    if |gs| == 0 then []
    else if gs[0].Mark? then [gs[0].span] + Marks(gs[1..])
    else Marks(gs[1..])
  }

  lemma {:induction false} MarksAppend(a: seq<Segment>, b: seq<Segment>)
    ensures Marks(a + b) == Marks(a) + Marks(b)
  {
    if |a| == 0 {
      assert a + b == b;
    } else {
      assert (a + b)[1..] == a[1..] + b;
      MarksAppend(a[1..], b);
    }
  }

  /**
   * The `forEach` over the sorted spans with `lastIndex == last`: a span
   * starting before `last` is skipped; otherwise the text since `last`
   * (when non-empty) and the span are emitted and `last` moves to its end.
   * The remaining text follows the last span.
   */
  function Emit(text: string, spans: seq<Span>, last: nat): (r: seq<Segment>)
    requires last <= |text| && AllIn(text, spans)
    decreases |spans|
  {
    if |spans| == 0 then
      if last < |text| then [Gap(text[last..])] else []
    else
      var sp := spans[0];
      if sp.position < last then Emit(text, spans[1..], last)
      else
        (if sp.position > last then [Gap(text[last..sp.position])] else [])
        + [Mark(sp)] + Emit(text, spans[1..], sp.position + sp.length)
  }

  /** `if (allMatches.length === 0) return text;` and otherwise the parts. */
  function Render(text: string, spans: seq<Span>): seq<Segment>
    requires AllIn(text, spans)
  {
    if |spans| == 0 then [Gap(text)] else Emit(text, spans, 0)
  }

  /** The segments one string renders to, given the query. */
  function Highlighted(text: string, query: string): seq<Segment> {
    Render(text, Candidates(text, query))
  }

  /** The gap before a span at `p` when the last span ended at `last`. */
  function GapBefore(text: string, last: nat, p: nat): (r: seq<Segment>)
    requires last <= p <= |text|
    ensures Concat(r) == text[last..p] && Marks(r) == []
  {
    if p > last then [Gap(text[last..p])] else []
  }

  /** Emission of a span that starts at or after `last`. */
  lemma EmitTaken(text: string, spans: seq<Span>, last: nat)
    requires last <= |text| && AllIn(text, spans)
    requires |spans| > 0 && spans[0].position >= last
    ensures spans[0].position + spans[0].length <= |text| && AllIn(text, spans[1..])
    ensures Emit(text, spans, last)
            == GapBefore(text, last, spans[0].position) + [Mark(spans[0])]
               + Emit(text, spans[1..], spans[0].position + spans[0].length)
  {
    assert SpanIn(text, spans[0]);
    assert forall k | 0 <= k < |spans[1..]| :: spans[1..][k] == spans[k + 1];
  }

  lemma ThreeParts(text: string, a: nat, b: nat, c: nat)
    requires a <= b <= c <= |text|
    ensures text[a..] == text[a..b] + text[b..c] + text[c..]
  {
  }

  /** The text of segments around one mark. */
  lemma ConcatAroundMark(g: seq<Segment>, sp: Span, r: seq<Segment>)
    ensures Concat(g + [Mark(sp)] + r) == Concat(g) + sp.text + Concat(r)
  {
    var m := [Mark(sp)];
    ConcatAppend(g + m, r);
    ConcatAppend(g, m);
    ConcatMark(sp);
    AppendAssoc(Concat(g), sp.text, Concat(r));
  }

  lemma ConcatMark(sp: Span)
    ensures Concat([Mark(sp)]) == sp.text
  {
    assert [Mark(sp)][1..] == [];
  }

  /** With no spans left the rest of the text is one gap, or nothing. */
  lemma EmitEnd(text: string, last: nat)
    requires last <= |text|
    ensures Concat(Emit(text, [], last)) == text[last..]
  {
    if last < |text| {
      var g := [Gap(text[last..])];
      assert Emit(text, [], last) == g;
      assert g[1..] == [];
      assert Concat(g) == text[last..] + Concat([]);
    }
  }

  /** Gaps and spans rebuild the remaining text exactly. */
  lemma {:induction false} EmitReconstructs(text: string, spans: seq<Span>, last: nat)
    requires last <= |text| && AllIn(text, spans)
    ensures Concat(Emit(text, spans, last)) == text[last..]
    decreases |spans|
  {
    if |spans| == 0 {
      EmitEnd(text, last);
    } else {
      var sp := spans[0];
      if sp.position >= last {
        var end := sp.position + sp.length;
        EmitTaken(text, spans, last);
        EmitReconstructs(text, spans[1..], end);
        ConcatAroundMark(GapBefore(text, last, sp.position), sp, Emit(text, spans[1..], end));
        assert SpanIn(text, sp);
        ThreeParts(text, last, sp.position, end);
      } else {
        EmitSkippedMarks(text, spans, last);
        EmitReconstructs(text, spans[1..], last);
      }
    }
  }

  /** Concatenating the rendered parts gives back the input text. */
  lemma RenderReconstructs(text: string, spans: seq<Span>)
    requires AllIn(text, spans)
    ensures Concat(Render(text, spans)) == text
  {
    if |spans| > 0 {
      EmitReconstructs(text, spans, 0);
    }
  }

  /** Every span in `ms` starts at or after `last`. */
  predicate AtOrAfter(ms: seq<Span>, last: nat) {
    forall k | 0 <= k < |ms| :: last <= ms[k].position
  }

  /** Each span ends before every later one starts. */
  predicate Disjoint(ms: seq<Span>) {
    forall i, j | 0 <= i < j < |ms| :: ms[i].position + ms[i].length <= ms[j].position
  }

  /** The marks of an emission that takes its first span. */
  lemma EmitTakenMarks(text: string, spans: seq<Span>, last: nat)
    requires last <= |text| && AllIn(text, spans)
    requires |spans| > 0 && spans[0].position >= last
    ensures spans[0].position + spans[0].length <= |text| && AllIn(text, spans[1..])
    ensures Marks(Emit(text, spans, last))
            == [spans[0]] + Marks(Emit(text, spans[1..], spans[0].position + spans[0].length))
  {
    var sp := spans[0];
    EmitTaken(text, spans, last);
    var gap := GapBefore(text, last, sp.position);
    var rest := Emit(text, spans[1..], sp.position + sp.length);
    MarksAppend(gap + [Mark(sp)], rest);
    MarksAppend(gap, [Mark(sp)]);
    assert Marks([Mark(sp)]) == [sp];
  }

  /** The marks of an emission that skips its first span. */
  lemma EmitSkippedMarks(text: string, spans: seq<Span>, last: nat)
    requires last <= |text| && AllIn(text, spans)
    requires |spans| > 0 && spans[0].position < last
    ensures AllIn(text, spans[1..])
    ensures Emit(text, spans, last) == Emit(text, spans[1..], last)
  {
    assert forall k | 0 <= k < |spans[1..]| :: spans[1..][k] == spans[k + 1];
  }

  lemma {:induction false} EmitMarksAfter(text: string, spans: seq<Span>, last: nat)
    requires last <= |text| && AllIn(text, spans)
    ensures AtOrAfter(Marks(Emit(text, spans, last)), last)
    decreases |spans|
  {
    if |spans| > 0 {
      var sp := spans[0];
      if sp.position < last {
        EmitSkippedMarks(text, spans, last);
        EmitMarksAfter(text, spans[1..], last);
      } else {
        EmitTakenMarks(text, spans, last);
        EmitMarksAfter(text, spans[1..], sp.position + sp.length);
      }
    }
  }

  lemma {:induction false} EmitMarksDisjoint(text: string, spans: seq<Span>, last: nat)
    requires last <= |text| && AllIn(text, spans)
    ensures Disjoint(Marks(Emit(text, spans, last)))
    decreases |spans|
  {
    if |spans| > 0 {
      var sp := spans[0];
      if sp.position < last {
        EmitSkippedMarks(text, spans, last);
        EmitMarksDisjoint(text, spans[1..], last);
      } else {
        var end := sp.position + sp.length;
        EmitTakenMarks(text, spans, last);
        EmitMarksDisjoint(text, spans[1..], end);
        EmitMarksAfter(text, spans[1..], end);
        var rest := Marks(Emit(text, spans[1..], end));
        var ms := [sp] + rest;
        forall i, j | 0 <= i < j < |ms|
          ensures ms[i].position + ms[i].length <= ms[j].position
        {
          assert ms[j] == rest[j - 1];
          if i > 0 {
            assert ms[i] == rest[i - 1];
          }
        }
      }
    }
  }

  lemma {:induction false} EmitMarksSubsequence(text: string, spans: seq<Span>, last: nat)
    requires last <= |text| && AllIn(text, spans)
    ensures IsSubsequence(Marks(Emit(text, spans, last)), spans)
    decreases |spans|
  {
    if |spans| > 0 {
      var sp := spans[0];
      if sp.position < last {
        EmitSkippedMarks(text, spans, last);
        EmitMarksSubsequence(text, spans[1..], last);
        SubsequenceOfTail(Marks(Emit(text, spans, last)), spans);
      } else {
        var end := sp.position + sp.length;
        EmitTakenMarks(text, spans, last);
        EmitMarksSubsequence(text, spans[1..], end);
        var ms := Marks(Emit(text, spans, last));
        assert ms[0] == spans[0];
        assert ms[1..] == Marks(Emit(text, spans[1..], end));
      }
    }
  }

  /**
   * The emitted spans start at or after `last`, do not overlap and keep the
   * input's order (they are a subsequence of it).
   */
  lemma EmitMarks(text: string, spans: seq<Span>, last: nat)
    requires last <= |text| && AllIn(text, spans)
    ensures var ms := Marks(Emit(text, spans, last));
            AtOrAfter(ms, last) && Disjoint(ms) && IsSubsequence(ms, spans)
  {
    EmitMarksAfter(text, spans, last);
    EmitMarksDisjoint(text, spans, last);
    EmitMarksSubsequence(text, spans, last);
  }

  /** The emitted spans of a whole rendering: disjoint, in order, drawn from the input. */
  lemma RenderMarks(text: string, spans: seq<Span>)
    requires AllIn(text, spans)
    ensures Disjoint(Marks(Render(text, spans))) && IsSubsequence(Marks(Render(text, spans)), spans)
  {
    if |spans| > 0 {
      EmitMarks(text, spans, 0);
    } else {
      assert Marks(Render(text, spans)) == Marks([Gap(text)][1..]) == [];
    }
  }

  lemma {:induction false} SubsequenceMembers<T>(a: seq<T>, b: seq<T>)
    requires IsSubsequence(a, b)
    ensures forall x | x in a :: x in b
    decreases |b|
  {
    if |a| > 0 && |b| > 0 {
      if a[0] == b[0] {
        SubsequenceMembers(a[1..], b[1..]);
        assert forall x | x in a :: x == a[0] || x in a[1..];
      } else {
        SubsequenceMembers(a, b[1..]);
      }
    }
  }

  /** Every highlighted span comes from the identifier scan or the regex scan. */
  lemma HighlightMarksAreCandidates(text: string, query: string)
    ensures forall s | s in Marks(Highlighted(text, query)) ::
              s in UuidSpans(text) || s in SearchSpans(text, query)
  {
    var c := Candidates(text, query);
    RenderMarks(text, c);
    SubsequenceMembers(Marks(Highlighted(text, query)), c);
    forall s | s in c ensures s in UuidSpans(text) || s in SearchSpans(text, query) {
      assert s in multiset(UuidSpans(text) + SearchSpans(text, query));
    }
  }

  /** A search candidate, or any candidate with a non-negative index, is the regex match of that index. */
  lemma MatchIndexPosition(text: string, query: string, s: Span)
    requires s in UuidSpans(text) || s in SearchSpans(text, query)
    requires s.kind == SearchSpan || s.matchIndex >= 0
    ensures !BlankQuery(query) && 0 <= s.matchIndex < |RegexMatches(text, query)|
    ensures s.position == RegexMatches(text, query)[s.matchIndex]
    ensures s.length == |query|
  {
    var u, q := UuidSpans(text), SearchSpans(text, query);
    if s in u {
      assert false;
    }
    var k :| 0 <= k < |q| && q[k] == s;
  }

  /**
   * The detail tabs number search spans before overlaps are dropped: an
   * emitted search span with index `k` is the `k`-th regex match, so a
   * dropped match leaves a hole in the displayed numbering.
   */
  lemma DetailTabsIndices(text: string, query: string, s: Span)
    requires s in Marks(Highlighted(text, query)) && s.kind == SearchSpan
    ensures !BlankQuery(query)
    ensures 0 <= s.matchIndex < |RegexMatches(text, query)|
    ensures s.position == RegexMatches(text, query)[s.matchIndex]
  {
    HighlightMarksAreCandidates(text, query);
    MatchIndexPosition(text, query, s);
  }

  /** Every emitted span is non-empty. */
  lemma MarksNonEmpty(text: string, query: string)
    ensures forall s | s in Marks(Highlighted(text, query)) :: s.length > 0
  {
    var c := Candidates(text, query);
    RenderMarks(text, c);
    SubsequenceMembers(Marks(Highlighted(text, query)), c);
  }

  /** At most one emitted span is the current result, for any index `cur >= 0`. */
  lemma CurrentAtMostOnce(text: string, query: string, cur: int)
    requires cur >= 0
    ensures var ms := Marks(Highlighted(text, query));
            forall i, j | 0 <= i < j < |ms| :: !(ms[i].matchIndex == cur && ms[j].matchIndex == cur)
  {
    var ms := Marks(Highlighted(text, query));
    RenderMarks(text, Candidates(text, query));
    MarksNonEmpty(text, query);
    HighlightMarksAreCandidates(text, query);
    forall i, j | 0 <= i < j < |ms|
      ensures !(ms[i].matchIndex == cur && ms[j].matchIndex == cur)
    {
      if ms[i].matchIndex == cur && ms[j].matchIndex == cur {
        assert ms[i] in ms && ms[j] in ms;
        MatchIndexPosition(text, query, ms[i]);
        MatchIndexPosition(text, query, ms[j]);
      }
    }
  }

  // ---------------------------------------------------------------------
  // Navigation
  // ---------------------------------------------------------------------

  /** `navigateToNextResult`: wraps to 0; does nothing with fewer than two results. */
  function Next(i: nat, n: nat): (r: nat)
    ensures i < n ==> r < n
    ensures n <= 1 ==> r == i
  {
    if n > 1 then (i + 1) % n else i
  }

  /**
   * `navigateToPrevResult`: `(i - 1 + n) % n`. The operand is never
   * negative for `i >= 0, n > 1`, so JavaScript's `%` agrees with Dafny's.
   */
  function Prev(i: nat, n: nat): (r: nat)
    ensures i < n ==> r < n
    ensures n <= 1 ==> r == i
  {
    if n > 1 then (i - 1 + n) % n else i
  }

  /** For an index in range, "next" steps up by one and wraps from the last result to 0. */
  lemma NextInRange(i: nat, n: nat)
    requires 1 < n && i < n
    ensures Next(i, n) == if i + 1 < n then i + 1 else 0
  {
    if i + 1 < n {
      assert (i + 1) % n == i + 1;
    } else {
      assert (i + 1) % n == 0;
    }
  }

  /** For an index in range, "previous" steps down by one and wraps from 0 to the last result. */
  lemma PrevInRange(i: nat, n: nat)
    requires 1 < n && i < n
    ensures Prev(i, n) == if i == 0 then n - 1 else i - 1
  {
    if i == 0 {
      assert (n - 1) % n == n - 1;
    } else {
      assert n <= i - 1 + n < 2 * n;
      assert (i - 1 + n) % n == i - 1;
    }
  }

  /** Next and previous undo each other. */
  lemma NextPrevInverse(i: nat, n: nat)
    requires i < n
    ensures Prev(Next(i, n), n) == i && Next(Prev(i, n), n) == i
  {
    if n > 1 {
      NextInRange(i, n);
      PrevInRange(i, n);
      PrevInRange(Next(i, n), n);
      NextInRange(Prev(i, n), n);
    }
  }

  /** `k` presses of "next". */
  function Steps(i: nat, n: nat, k: nat): nat {
    if k == 0 then i else Next(Steps(i, n, k - 1), n)
  }

  /** Up to `n` presses of "next" advance the index by `k`, wrapping once past the end. */
  lemma {:induction false} StepsWrap(i: nat, n: nat, k: nat)
    requires 1 < n && i < n && k <= n
    ensures Steps(i, n, k) == if i + k < n then i + k else i + k - n
  {
    if k > 0 {
      StepsWrap(i, n, k - 1);
      NextInRange(Steps(i, n, k - 1), n);
    }
  }

  lemma {:induction false} StepsIdle(i: nat, n: nat, k: nat)
    requires n <= 1
    ensures Steps(i, n, k) == i
  {
    if k > 0 {
      StepsIdle(i, n, k - 1);
    }
  }

  /** `n` presses of "next" return to the starting result. */
  lemma FullCycle(i: nat, n: nat)
    requires i < n
    ensures Steps(i, n, n) == i
  {
    if n > 1 {
      StepsWrap(i, n, n);
    } else {
      StepsIdle(i, n, n);
    }
  }

  /**
   * The payload arrows of the safe detail tabs, shown only while there are
   * results, compute the same index without the `n > 1` guard.
   */
  function UnguardedNext(i: nat, n: nat): (r: nat)
    requires n > 0
  {
    (i + 1) % n
  }

  function UnguardedPrev(i: nat, n: nat): (r: nat)
    requires n > 0
  {
    (i - 1 + n) % n
  }

  /** On an index in range, the unguarded arrows agree with the guarded ones. */
  lemma UnguardedAgrees(i: nat, n: nat)
    requires i < n
    ensures UnguardedNext(i, n) == Next(i, n) && UnguardedPrev(i, n) == Prev(i, n)
  {
    if n == 1 {
      assert (i + 1) % 1 == 0 && (i - 1 + 1) % 1 == 0;
    }
  }
}
