/**
 * The JSON viewer: per-path collapse state, and the render traversal that
 * scans string values with the shared segmenter while threading one match
 * counter through the tree, so the displayed search spans are numbered
 * 0, 1, 2, ... in render order.
 */
module JsonViewer {
  import opened Strings
  import opened Json
  import opened Highlight

  // ---------------------------------------------------------------------
  // Collapse state
  // ---------------------------------------------------------------------

  /** The `collapsed` record: a path absent from the map is expanded. */
  type Collapsed = map<string, bool>

  /** `collapsed[path] || false`. */
  predicate IsCollapsed(c: Collapsed, path: string) {
    path in c && c[path]
  }

  /** `{...prev, [path]: !prev[path]}`: flips exactly one path. */
  function Toggle(c: Collapsed, path: string): (r: Collapsed)
    ensures IsCollapsed(r, path) == !IsCollapsed(c, path)
    ensures forall p | p != path :: IsCollapsed(r, p) == IsCollapsed(c, p)
  {
    c[path := !IsCollapsed(c, path)]
  }

  /** Toggling a path twice restores the state of every path. */
  lemma ToggleTwice(c: Collapsed, path: string, p: string)
    ensures IsCollapsed(Toggle(Toggle(c, path), path), p) == IsCollapsed(c, p)
  {
  }

  /** The initial state shows every node expanded. */
  lemma InitiallyExpanded(p: string)
    ensures !IsCollapsed(map[], p)
  {
  }

  /** The toggle key of an array node. */
  function ArrayKey(path: string): string {
    path + "[]"
  }

  /** The toggle key of an object node. */
  function ObjectKey(path: string): string {
    path + "{}"
  }

  // ---------------------------------------------------------------------
  // Numbering
  // ---------------------------------------------------------------------

  /** The indices carried by the search spans, in display order. */
  function SearchIndices(gs: seq<Segment>): seq<int> {
    if |gs| == 0 then []
    else if gs[0].Mark? && gs[0].span.kind == SearchSpan then [gs[0].span.matchIndex] + SearchIndices(gs[1..])
    else SearchIndices(gs[1..])
  }

  /** `a, a + 1, ..., b - 1`. */
  function Range(a: int, b: int): (r: seq<int>)
    ensures |r| == if a <= b then b - a else 0
    ensures forall k | 0 <= k < |r| :: r[k] == a + k
  {
    if a < b then seq(b - a, k requires 0 <= k < b - a => a + k) else []
  }

  lemma RangeAppend(a: int, b: int, c: int)
    requires a <= b <= c
    ensures Range(a, b) + Range(b, c) == Range(a, c)
  {
  }

  /**
   * `searchMatchCounter.current++` at each emitted search span: the
   * viewer's numbering, applied to the segments of one string.
   */
  function Renumber(gs: seq<Segment>, counter: nat): (r: (seq<Segment>, nat))
    ensures |r.0| == |gs| && counter <= r.1
  {
    if |gs| == 0 then ([], counter)
    else if gs[0].Mark? && gs[0].span.kind == SearchSpan then
      var t := Renumber(gs[1..], counter + 1);
      ([Mark(gs[0].span.(matchIndex := counter))] + t.0, t.1)
    else
      var t := Renumber(gs[1..], counter);
      ([gs[0]] + t.0, t.1)
  }

  /**
   * Renumbering keeps the displayed text and gives the search spans the
   * consecutive indices `counter ..` up to the returned counter.
   */
  lemma {:induction false} RenumberConsecutive(gs: seq<Segment>, counter: nat)
    ensures Concat(Renumber(gs, counter).0) == Concat(gs)
    ensures SearchIndices(Renumber(gs, counter).0) == Range(counter, Renumber(gs, counter).1)
  {
    if |gs| > 0 {
      var r := Renumber(gs, counter);
      if gs[0].Mark? && gs[0].span.kind == SearchSpan {
        RenumberConsecutive(gs[1..], counter + 1);
        assert r.0[1..] == Renumber(gs[1..], counter + 1).0;
        RangeAppend(counter, counter + 1, r.1);
      } else {
        RenumberConsecutive(gs[1..], counter);
        assert r.0[1..] == Renumber(gs[1..], counter).0;
      }
    }
  }

  // ---------------------------------------------------------------------
  // The render traversal
  // ---------------------------------------------------------------------

  /** A rendered string value: where it sits and the segments it shows. */
  datatype Leaf = Leaf(path: string, segments: seq<Segment>)

  /**
   * `renderValue(value, path)` with the counter passed in and returned.
   * Only string values are scanned; scalars, keys and empty containers
   * render without spans; a collapsed container renders no children.
   */
  function RenderValue(v: Json, path: string, counter: nat, c: Collapsed, query: string): (r: (seq<Leaf>, nat))
    ensures counter <= r.1
    decreases v, 1
  {
    match v
    case JString(s) =>
      var t := Renumber(Highlighted(s, query), counter);
      ([Leaf(path, t.0)], t.1)
    case JArray(items) =>
      if |items| == 0 || IsCollapsed(c, ArrayKey(path)) then ([], counter)
      else RenderItems(items, 0, path, counter, c, query)
    case JObject(ms) =>
      if |ms| == 0 || IsCollapsed(c, ObjectKey(path)) then ([], counter)
      else RenderMembers(ms, path, counter, c, query)
    case _ => ([], counter)
  }

  /** Array elements `start..`, in index order, each at `path[i]`. */
  function RenderItems(items: seq<Json>, start: nat, path: string, counter: nat, c: Collapsed, query: string)
    : (r: (seq<Leaf>, nat))
    ensures counter <= r.1
    decreases items, 0
  {
    if |items| == 0 then ([], counter)
    else
      var h := RenderValue(items[0], path + "[" + NatToString(start) + "]", counter, c, query);
      var t := RenderItems(items[1..], start + 1, path, h.1, c, query);
      (h.0 + t.0, t.1)
  }

  /** Object members in key order, each at `path.key`. */
  function RenderMembers(ms: seq<Member>, path: string, counter: nat, c: Collapsed, query: string)
    : (r: (seq<Leaf>, nat))
    ensures counter <= r.1
    decreases ms, 0
  {
    if |ms| == 0 then ([], counter)
    else
      var h := RenderValue(ms[0].value, path + "." + ms[0].key, counter, c, query);
      var t := RenderMembers(ms[1..], path, h.1, c, query);
      (h.0 + t.0, t.1)
  }

  /** `renderValue(data, "root")`: depth 0 resets the counter. */
  function RenderRoot(data: Json, c: Collapsed, query: string): seq<Leaf> {
    RenderValue(data, "root", 0, c, query).0
  }

  /** The search indices of all rendered leaves, in render order. */
  function LeafIndices(ls: seq<Leaf>): seq<int> {
    if |ls| == 0 then [] else SearchIndices(ls[0].segments) + LeafIndices(ls[1..])
  }

  lemma {:induction false} LeafIndicesAppend(a: seq<Leaf>, b: seq<Leaf>)
    ensures LeafIndices(a + b) == LeafIndices(a) + LeafIndices(b)
  {
    if |a| == 0 {
      assert a + b == b;
    } else {
      assert (a + b)[1..] == a[1..] + b;
      LeafIndicesAppend(a[1..], b);
    }
  }

  /**
   * The counter threads through the tree: the search spans rendered under
   * a node carry exactly the indices from the incoming counter up to the
   * outgoing one, in render order.
   */
  lemma {:induction false} RenderValueIndices(v: Json, path: string, counter: nat, c: Collapsed, query: string)
    ensures var r := RenderValue(v, path, counter, c, query);
            LeafIndices(r.0) == Range(counter, r.1)
    decreases v, 1
  {
    match v
    case JString(s) =>
      RenumberConsecutive(Highlighted(s, query), counter);
      var r := RenderValue(v, path, counter, c, query);
      assert LeafIndices(r.0) == SearchIndices(r.0[0].segments) + LeafIndices([]);
    case JArray(items) =>
      if |items| > 0 && !IsCollapsed(c, ArrayKey(path)) {
        RenderItemsIndices(items, 0, path, counter, c, query);
      }
    case JObject(ms) =>
      if |ms| > 0 && !IsCollapsed(c, ObjectKey(path)) {
        RenderMembersIndices(ms, path, counter, c, query);
      }
    case _ =>
  }

  lemma {:induction false} RenderItemsIndices(items: seq<Json>, start: nat, path: string, counter: nat,
                                              c: Collapsed, query: string)
    ensures var r := RenderItems(items, start, path, counter, c, query);
            LeafIndices(r.0) == Range(counter, r.1)
    decreases items, 0
  {
    if |items| > 0 {
      var h := RenderValue(items[0], path + "[" + NatToString(start) + "]", counter, c, query);
      var t := RenderItems(items[1..], start + 1, path, h.1, c, query);
      RenderValueIndices(items[0], path + "[" + NatToString(start) + "]", counter, c, query);
      RenderItemsIndices(items[1..], start + 1, path, h.1, c, query);
      LeafIndicesAppend(h.0, t.0);
      RangeAppend(counter, h.1, t.1);
    }
  }

  lemma {:induction false} RenderMembersIndices(ms: seq<Member>, path: string, counter: nat,
                                                c: Collapsed, query: string)
    ensures var r := RenderMembers(ms, path, counter, c, query);
            LeafIndices(r.0) == Range(counter, r.1)
    decreases ms, 0
  {
    if |ms| > 0 {
      var h := RenderValue(ms[0].value, path + "." + ms[0].key, counter, c, query);
      var t := RenderMembers(ms[1..], path, h.1, c, query);
      RenderValueIndices(ms[0].value, path + "." + ms[0].key, counter, c, query);
      RenderMembersIndices(ms[1..], path, h.1, c, query);
      LeafIndicesAppend(h.0, t.0);
      RangeAppend(counter, h.1, t.1);
    }
  }

  /**
   * A whole rendering numbers its search spans 0 .. k-1 in render order,
   * so at most one of them is the current result.
   */
  lemma RootIndices(data: Json, c: Collapsed, query: string, cur: int)
    ensures var ix := LeafIndices(RenderRoot(data, c, query));
            && (forall k | 0 <= k < |ix| :: ix[k] == k)
            && (forall i, j | 0 <= i < j < |ix| :: !(ix[i] == cur && ix[j] == cur))
  {
    RenderValueIndices(data, "root", 0, c, query);
  }

  /** A collapsed container renders nothing and consumes no index. */
  lemma CollapsedConsumesNothing(v: Json, path: string, counter: nat, c: Collapsed, query: string)
    requires (v.JArray? && IsCollapsed(c, ArrayKey(path))) || (v.JObject? && IsCollapsed(c, ObjectKey(path)))
    ensures RenderValue(v, path, counter, c, query) == ([], counter)
  {
  }

  // ---------------------------------------------------------------------
  // What is shown
  // ---------------------------------------------------------------------

  /**
   * The string values a reader sees, with their paths: every string not
   * under a collapsed container, in traversal order.
   */
  function Visible(v: Json, path: string, c: Collapsed): seq<(string, string)>
    decreases v, 1
  {
    match v
    case JString(s) => [(path, s)]
    case JArray(items) => if IsCollapsed(c, ArrayKey(path)) then [] else VisibleItems(items, 0, path, c)
    case JObject(ms) => if IsCollapsed(c, ObjectKey(path)) then [] else VisibleMembers(ms, path, c)
    case _ => []
  }

  function VisibleItems(items: seq<Json>, start: nat, path: string, c: Collapsed): seq<(string, string)>
    decreases items, 0
  {
    if |items| == 0 then []
    else Visible(items[0], path + "[" + NatToString(start) + "]", c) + VisibleItems(items[1..], start + 1, path, c)
  }

  function VisibleMembers(ms: seq<Member>, path: string, c: Collapsed): seq<(string, string)>
    decreases ms, 0
  {
    if |ms| == 0 then []
    else Visible(ms[0].value, path + "." + ms[0].key, c) + VisibleMembers(ms[1..], path, c)
  }

  /** Each rendered leaf's path and displayed text. */
  function Shown(ls: seq<Leaf>): (r: seq<(string, string)>)
    ensures |r| == |ls|
  {
    if |ls| == 0 then [] else [(ls[0].path, Concat(ls[0].segments))] + Shown(ls[1..])
  }

  lemma {:induction false} ShownAppend(a: seq<Leaf>, b: seq<Leaf>)
    ensures Shown(a + b) == Shown(a) + Shown(b)
  {
    if |a| == 0 {
      assert a + b == b;
    } else {
      assert (a + b)[1..] == a[1..] + b;
      ShownAppend(a[1..], b);
    }
  }

  /**
   * Highlighting loses no text: the leaves display exactly the visible
   * string values, at their paths, in order.
   */
  lemma {:induction false} RenderShowsVisible(v: Json, path: string, counter: nat, c: Collapsed, query: string)
    ensures Shown(RenderValue(v, path, counter, c, query).0) == Visible(v, path, c)
    decreases v, 1
  {
    match v
    case JString(s) => RenderStringShowsVisible(s, path, counter, c, query);
    case JArray(items) =>
      if |items| > 0 && !IsCollapsed(c, ArrayKey(path)) {
        RenderItemsShowsVisible(items, 0, path, counter, c, query);
      }
    case JObject(ms) =>
      if |ms| > 0 && !IsCollapsed(c, ObjectKey(path)) {
        RenderMembersShowsVisible(ms, path, counter, c, query);
      }
    case _ =>
  }

  lemma RenderStringShowsVisible(s: string, path: string, counter: nat, c: Collapsed, query: string)
    ensures Shown(RenderValue(JString(s), path, counter, c, query).0) == Visible(JString(s), path, c)
  {
    var gs := Highlighted(s, query);
    RenumberConsecutive(gs, counter);
    RenderReconstructs(s, Candidates(s, query));
  }

  lemma {:induction false} RenderItemsShowsVisible(items: seq<Json>, start: nat, path: string, counter: nat,
                                                   c: Collapsed, query: string)
    ensures Shown(RenderItems(items, start, path, counter, c, query).0) == VisibleItems(items, start, path, c)
    decreases items, 0
  {
    if |items| > 0 {
      var p := path + "[" + NatToString(start) + "]";
      var h := RenderValue(items[0], p, counter, c, query);
      var t := RenderItems(items[1..], start + 1, path, h.1, c, query);
      RenderShowsVisible(items[0], p, counter, c, query);
      RenderItemsShowsVisible(items[1..], start + 1, path, h.1, c, query);
      ShownAppend(h.0, t.0);
    }
  }

  lemma {:induction false} RenderMembersShowsVisible(ms: seq<Member>, path: string, counter: nat,
                                                     c: Collapsed, query: string)
    ensures Shown(RenderMembers(ms, path, counter, c, query).0) == VisibleMembers(ms, path, c)
    decreases ms, 0
  {
    if |ms| > 0 {
      var p := path + "." + ms[0].key;
      var h := RenderValue(ms[0].value, p, counter, c, query);
      var t := RenderMembers(ms[1..], path, h.1, c, query);
      RenderShowsVisible(ms[0].value, p, counter, c, query);
      RenderMembersShowsVisible(ms[1..], path, h.1, c, query);
      ShownAppend(h.0, t.0);
    }
  }
}
