/** The section-based README composer: a stable sort of a template's sections
    by `order`, the synthesized table of contents, and per-section rendering
    with failures and blank output dropped. Rendering a section body (a Jinja2
    template in the original) is a parameter of the composer. */
module Composer {
  import opened Base
  import opened Text

  /** A context value. The composer passes values through to the renderer
      untouched and writes only a string itself (the table of contents); the
      suggested context supplies strings and lists of strings, so those are the
      kinds modelled. */
  datatype Value = Str(s: string) | Items(xs: seq<string>)

  type Context = map<string, Value>

  /** Renders one section body against a context; `None` is a rendering failure
      (an exception raised by the template engine). */
  type Renderer = (string, Context) -> Option<string>

  datatype TemplateSection = TemplateSection(
    name: string,
    title: string,
    content: string,
    optional: bool,
    order: int)

  datatype Template = Template(
    name: string,
    description: string,
    projectTypes: seq<string>,
    sections: seq<TemplateSection>)

  /** The context key the composer writes the table of contents to. */
  const TocKey: string := "table_of_contents"

  // ----- Stable sort by `order` ------------------------------------------

  predicate SortedByOrder(s: seq<TemplateSection>) {
    forall i, j :: 0 <= i < j < |s| ==> s[i].order <= s[j].order
  }

  /** The sections with sort key `k`, in their relative order. A sort is stable
      when it keeps this subsequence for every key. */
  function WithOrder(s: seq<TemplateSection>, k: int): (r: seq<TemplateSection>)
    decreases |s|
  {
    if s == [] then []
    else (if s[0].order == k then [s[0]] else []) + WithOrder(s[1..], k)
  }

  /** The members of a key's subsequence are exactly the sections with that key. */
  lemma {:induction false} WithOrderMembers(s: seq<TemplateSection>, k: int)
    ensures forall x :: x in WithOrder(s, k) <==> x in s && x.order == k
    decreases |s|
  {
    if s != [] {
      WithOrderMembers(s[1..], k);
      assert s == [s[0]] + s[1..];
    }
  }

  lemma {:induction false} WithOrderAppend(a: seq<TemplateSection>, b: seq<TemplateSection>, k: int)
    ensures WithOrder(a + b, k) == WithOrder(a, k) + WithOrder(b, k)
    decreases |a|
  {
    if a == [] {
      assert a + b == b;
    } else {
      var h := if a[0].order == k then [a[0]] else [];
      assert (a + b)[0] == a[0];
      calc {
        WithOrder(a + b, k);
        h + WithOrder((a + b)[1..], k);
        { assert (a + b)[1..] == a[1..] + b; }
        h + WithOrder(a[1..] + b, k);
        { WithOrderAppend(a[1..], b, k); }
        h + (WithOrder(a[1..], k) + WithOrder(b, k));
        (h + WithOrder(a[1..], k)) + WithOrder(b, k);
        WithOrder(a, k) + WithOrder(b, k);
      }
    }
  }

  /** Every section in `s` has order at least `b`. */
  predicate AllAtLeast(s: seq<TemplateSection>, b: int) {
    forall i :: 0 <= i < |s| ==> b <= s[i].order
  }

  lemma SortedCons(x: TemplateSection, s: seq<TemplateSection>)
    requires SortedByOrder(s) && AllAtLeast(s, x.order)
    ensures SortedByOrder([x] + s)
  {
    var r := [x] + s;
    forall i, j | 0 <= i < j < |r|
      ensures r[i].order <= r[j].order
    {
      if i > 0 {
        assert r[i] == s[i - 1] && r[j] == s[j - 1];
      } else {
        assert r[j] == s[j - 1];
      }
    }
  }

  /** Places `x` before the first element whose order is not below its own. */
  function InsertByOrder(x: TemplateSection, s: seq<TemplateSection>): seq<TemplateSection>
    decreases |s|
  {
    if s == [] || x.order <= s[0].order then [x] + s
    else [s[0]] + InsertByOrder(x, s[1..])
  }

  lemma {:induction false} InsertByOrderAtLeast(x: TemplateSection, s: seq<TemplateSection>, b: int)
    requires AllAtLeast(s, b) && b <= x.order
    ensures AllAtLeast(InsertByOrder(x, s), b)
    decreases |s|
  {
    if s != [] && x.order > s[0].order {
      InsertByOrderAtLeast(x, s[1..], b);
    }
  }

  lemma {:induction false} InsertByOrderSorted(x: TemplateSection, s: seq<TemplateSection>)
    requires SortedByOrder(s)
    ensures SortedByOrder(InsertByOrder(x, s))
    decreases |s|
  {
    if s == [] || x.order <= s[0].order {
      SortedCons(x, s);
    } else {
      var rest := InsertByOrder(x, s[1..]);
      InsertByOrderSorted(x, s[1..]);
      InsertByOrderAtLeast(x, s[1..], s[0].order);
      SortedCons(s[0], rest);
    }
  }

  lemma {:induction false} InsertByOrderElements(x: TemplateSection, s: seq<TemplateSection>)
    ensures multiset(InsertByOrder(x, s)) == multiset(s) + multiset{x}
    decreases |s|
  {
    if s != [] && x.order > s[0].order {
      InsertByOrderElements(x, s[1..]);
      assert s == [s[0]] + s[1..];
    }
  }

  /** Inserting keeps every key's subsequence as if `x` stood in front. */
  lemma {:induction false} InsertByOrderStable(x: TemplateSection, s: seq<TemplateSection>, k: int)
    ensures WithOrder(InsertByOrder(x, s), k) == WithOrder([x] + s, k)
    decreases |s|
  {
    if s != [] && x.order > s[0].order {
      var s' := s[1..];
      var rest := InsertByOrder(x, s');
      var a, b := WithOrder([x], k), WithOrder([s[0]], k);
      // `x` and `s[0]` have different orders, so at most one of them has key `k`.
      assert a == [] || b == [] by {
        WithOrderSingle(x, k);
        WithOrderSingle(s[0], k);
      }
      calc {
        WithOrder(InsertByOrder(x, s), k);
        WithOrder([s[0]] + rest, k);
        { WithOrderAppend([s[0]], rest, k); }
        b + WithOrder(rest, k);
        { InsertByOrderStable(x, s', k); WithOrderAppend([x], s', k); }
        b + (a + WithOrder(s', k));
        a + (b + WithOrder(s', k));
        { WithOrderAppend([s[0]], s', k); assert [s[0]] + s' == s; }
        a + WithOrder(s, k);
        { WithOrderAppend([x], s, k); }
        WithOrder([x] + s, k);
      }
    }
  }

  lemma WithOrderSingle(x: TemplateSection, k: int)
    ensures WithOrder([x], k) == if x.order == k then [x] else []
  {
    assert [x][1..] == [];
  }

  /** Inserting into a stably sorted tail gives a stably sorted whole. */
  lemma InsertByOrderKeepsStable(x: TemplateSection, sorted: seq<TemplateSection>, s: seq<TemplateSection>)
    requires forall k :: WithOrder(sorted, k) == WithOrder(s, k)
    ensures forall k :: WithOrder(InsertByOrder(x, sorted), k) == WithOrder([x] + s, k)
  {
    forall k
      ensures WithOrder(InsertByOrder(x, sorted), k) == WithOrder([x] + s, k)
    {
      InsertByOrderStable(x, sorted, k);
      WithOrderAppend([x], sorted, k);
      WithOrderAppend([x], s, k);
    }
  }

  /** One insertion step of the sort keeps all three sort properties. */
  lemma InsertByOrderStep(x: TemplateSection, rest: seq<TemplateSection>, tail: seq<TemplateSection>)
    requires SortedByOrder(rest)
    requires multiset(rest) == multiset(tail)
    requires forall k :: WithOrder(rest, k) == WithOrder(tail, k)
    ensures SortedByOrder(InsertByOrder(x, rest))
    ensures multiset(InsertByOrder(x, rest)) == multiset([x] + tail)
    ensures forall k :: WithOrder(InsertByOrder(x, rest), k) == WithOrder([x] + tail, k)
  {
    InsertByOrderSorted(x, rest);
    InsertByOrderElements(x, rest);
    InsertByOrderKeepsStable(x, rest, tail);
  }

  /** Python's `sorted(sections, key=lambda s: s.order)`: ascending by `order`,
      a permutation of the input, and stable. */
  function SortByOrder(s: seq<TemplateSection>): (r: seq<TemplateSection>)
    ensures SortedByOrder(r)
    ensures multiset(r) == multiset(s)
    ensures forall k :: WithOrder(r, k) == WithOrder(s, k)
    decreases |s|
  {
    if s == [] then []
    else
      var rest := SortByOrder(s[1..]);
      InsertByOrderStep(s[0], rest, s[1..]);
      assert s == [s[0]] + s[1..];
      InsertByOrder(s[0], rest)
  }

  lemma SortedTail(s: seq<TemplateSection>)
    requires SortedByOrder(s) && s != []
    ensures SortedByOrder(s[1..])
  {
    forall i, j | 0 <= i < j < |s| - 1
      ensures s[1..][i].order <= s[1..][j].order
    {
      assert s[1..][i] == s[i + 1] && s[1..][j] == s[j + 1];
    }
  }

  lemma WithOrderHead(s: seq<TemplateSection>)
    ensures s != [] ==> s[0] in WithOrder(s, s[0].order)
  {
  }

  lemma WithOrderCons(s: seq<TemplateSection>, k: int)
    requires s != []
    ensures WithOrder(s, k) == (if s[0].order == k then [s[0]] else []) + WithOrder(s[1..], k)
  {
  }

  /** `a[0]` occurs in `b` with the same key, so a sorted `b` starts no higher. */
  lemma HeadNotAbove(a: seq<TemplateSection>, b: seq<TemplateSection>)
    requires a != [] && b != [] && SortedByOrder(b)
    requires WithOrder(a, a[0].order) == WithOrder(b, a[0].order)
    ensures b[0].order <= a[0].order
  {
    var m := a[0].order;
    WithOrderMembers(a, m);
    WithOrderMembers(b, m);
    assert a[0] in WithOrder(a, m);
    var i :| 0 <= i < |b| && b[i] == a[0];
  }

  /** Two sorted sequences with the same subsequence for every key start alike. */
  lemma StableSortSameHead(a: seq<TemplateSection>, b: seq<TemplateSection>)
    requires a != [] && b != []
    requires SortedByOrder(a) && SortedByOrder(b)
    requires forall k :: WithOrder(a, k) == WithOrder(b, k)
    ensures a[0] == b[0]
  {
    var m := a[0].order;
    HeadNotAbove(a, b);
    HeadNotAbove(b, a);
    WithOrderCons(a, m);
    WithOrderCons(b, m);
    assert WithOrder(a, m)[0] == a[0];
    assert WithOrder(b, m)[0] == b[0];
  }

  lemma StableSortSameTail(a: seq<TemplateSection>, b: seq<TemplateSection>)
    requires a != [] && b != [] && a[0] == b[0]
    requires forall k :: WithOrder(a, k) == WithOrder(b, k)
    ensures forall k :: WithOrder(a[1..], k) == WithOrder(b[1..], k)
  {
    forall k
      ensures WithOrder(a[1..], k) == WithOrder(b[1..], k)
    {
      var h := if a[0].order == k then [a[0]] else [];
      WithOrderCons(a, k);
      WithOrderCons(b, k);
      assert WithOrder(a[1..], k) == WithOrder(a, k)[|h|..];
      assert WithOrder(b[1..], k) == WithOrder(b, k)[|h|..];
    }
  }

  /** Stable sorting has exactly one result: two sorted sequences with the same
      subsequence for every key are equal. */
  lemma {:induction false} StableSortUnique(a: seq<TemplateSection>, b: seq<TemplateSection>)
    requires SortedByOrder(a) && SortedByOrder(b)
    requires forall k :: WithOrder(a, k) == WithOrder(b, k)
    ensures a == b
    decreases |a|
  {
    WithOrderHead(a);
    WithOrderHead(b);
    if a != [] && b != [] {
      StableSortSameHead(a, b);
      StableSortSameTail(a, b);
      SortedTail(a);
      SortedTail(b);
      StableSortUnique(a[1..], b[1..]);
      assert a == [a[0]] + a[1..];
      assert b == [b[0]] + b[1..];
    }
  }

  // ----- Table of contents -----------------------------------------------

  predicate HasToc(s: seq<TemplateSection>) {
    exists i :: 0 <= i < |s| && s[i].name == "toc"
  }

  /** The sections that get a table-of-contents line. */
  predicate Listed(s: TemplateSection) {
    s.name != "toc" && s.name != "header" && s.title != ""
  }

  /** `title.lower().replace(" ", "-")`. */
  function Anchor(title: string): (a: string)
    ensures |a| == |title|
    ensures ' ' !in a
    ensures forall i :: 0 <= i < |a| ==> !IsAsciiUpper(a[i])
    ensures forall i :: 0 <= i < |title| && title[i] != ' ' ==> a[i] == LowerChar(title[i])
    ensures forall i :: 0 <= i < |title| && title[i] == ' ' ==> a[i] == '-'
  {
    ReplaceCharPointwise(Lower(title), ' ', '-');
    ReplaceChar(Lower(title), ' ', "-")
  }

  /** An anchor is its own anchor, and case in the title does not matter. */
  lemma AnchorNormal(title: string)
    ensures Anchor(Anchor(title)) == Anchor(title)
    ensures Anchor(Lower(title)) == Anchor(title)
  {
  }

  function TocEntry(title: string): string {
    "- [" + title + "](#" + Anchor(title) + ")"
  }

  /** One line per listed section, in the given order. */
  function TocLines(sorted: seq<TemplateSection>): (r: seq<string>)
    ensures |r| <= |sorted|
    ensures forall line :: line in r <==>
              exists i :: 0 <= i < |sorted| && Listed(sorted[i]) && line == TocEntry(sorted[i].title)
  {
    FilterMapMembers(TocLine, sorted);
    FilterMap(TocLine, sorted)
  }

  function TocLine(s: TemplateSection): Option<string> {
    if Listed(s) then Some(TocEntry(s.title)) else None
  }

  lemma TocLinesAppend(a: seq<TemplateSection>, b: seq<TemplateSection>)
    ensures TocLines(a + b) == TocLines(a) + TocLines(b)
  {
    FilterMapAppend(TocLine, a, b);
  }

  function TableOfContents(sorted: seq<TemplateSection>): string {
    Join(TocLines(sorted), "\n")
  }

  // ----- Section rendering -------------------------------------------------

  /** What one section contributes: its rendering, unless that failed or is blank. */
  function SectionOutput(render: Renderer, ctx: Context): TemplateSection -> Option<string> {
    (s: TemplateSection) =>
      match render(s.content, ctx)
      case Some(text) => if IsBlank(text) then None else Some(text)
      case None => None
  }

  /** The rendered sections that survive, in order. */
  function RenderSections(sorted: seq<TemplateSection>, ctx: Context, render: Renderer): (parts: seq<string>)
    ensures |parts| <= |sorted|
    ensures forall p :: p in parts ==>
              !IsBlank(p) && exists i :: 0 <= i < |sorted| && render(sorted[i].content, ctx) == Some(p)
    ensures forall i :: 0 <= i < |sorted| && render(sorted[i].content, ctx).Some?
              && !IsBlank(render(sorted[i].content, ctx).value)
              ==> render(sorted[i].content, ctx).value in parts
    ensures (forall i :: 0 <= i < |sorted| ==>
               render(sorted[i].content, ctx).None? || IsBlank(render(sorted[i].content, ctx).value))
            ==> parts == []
  {
    var f := SectionOutput(render, ctx);
    assert forall i :: 0 <= i < |sorted| ==> f(sorted[i]) == SectionOutput(render, ctx)(sorted[i]);
    FilterMapMembers(f, sorted);
    FilterMap(f, sorted)
  }

  /** Fault isolation: a section that fails or renders blank contributes
      nothing, whatever its neighbours do. */
  lemma DroppedSectionContributesNothing(a: seq<TemplateSection>, x: TemplateSection, b: seq<TemplateSection>,
                                         ctx: Context, render: Renderer)
    requires render(x.content, ctx).None? || IsBlank(render(x.content, ctx).value)
    ensures RenderSections(a + [x] + b, ctx, render) == RenderSections(a, ctx, render) + RenderSections(b, ctx, render)
  {
    var f := SectionOutput(render, ctx);
    FilterMapAppend(f, a + [x], b);
    FilterMapAppend(f, a, [x]);
    FilterMapSingle(f, x);
  }

  /** A section that renders to visible text contributes exactly that text at
      its own position, whatever its neighbours do. */
  lemma KeptSectionContributesItsText(a: seq<TemplateSection>, x: TemplateSection, b: seq<TemplateSection>,
                                      ctx: Context, render: Renderer)
    requires render(x.content, ctx).Some? && !IsBlank(render(x.content, ctx).value)
    ensures RenderSections(a + [x] + b, ctx, render)
            == RenderSections(a, ctx, render) + [render(x.content, ctx).value] + RenderSections(b, ctx, render)
  {
    var f := SectionOutput(render, ctx);
    FilterMapAppend(f, a + [x], b);
    FilterMapAppend(f, a, [x]);
    FilterMapSingle(f, x);
  }

  /** The result of `render_template`: the document and the context after the
      call (the original writes the table of contents into the caller's dict). */
  datatype Rendered = Rendered(text: string, context: Context)

  /** The context the sections are rendered against: the caller's, with the
      table of contents written in when the sections include a `toc` one. */
  function ContextWithToc(sorted: seq<TemplateSection>, ctx: Context): Context {
    if HasToc(sorted) then ctx[TocKey := Str(TableOfContents(sorted))] else ctx
  }

  lemma ContextWithTocIdempotent(sorted: seq<TemplateSection>, ctx: Context)
    ensures ContextWithToc(sorted, ContextWithToc(sorted, ctx)) == ContextWithToc(sorted, ctx)
  {
  }

  /** The body of `render_template` once the template is chosen. */
  function Compose(t: Template, ctx: Context, render: Renderer): (r: Rendered)
    ensures forall k :: k != TocKey ==> (k in r.context <==> k in ctx)
    ensures forall k :: k != TocKey && k in ctx ==> r.context[k] == ctx[k]
    ensures !HasToc(t.sections) ==> r.context == ctx
    ensures HasToc(t.sections) ==> r.context == ctx[TocKey := Str(TableOfContents(SortByOrder(t.sections)))]
    ensures r.text == Join(VisibleTexts(SortByOrder(t.sections), r.context, render), "\n")
  {
    var sorted := SortByOrder(t.sections);
    SortKeepsToc(t.sections);
    var ctx' := ContextWithToc(sorted, ctx);
    RenderSectionsAreVisibleTexts(sorted, ctx', render);
    Rendered(Join(RenderSections(sorted, ctx', render), "\n"), ctx')
  }

  /** Sorting neither adds nor removes a `toc` section. */
  lemma SortKeepsToc(s: seq<TemplateSection>)
    ensures HasToc(SortByOrder(s)) <==> HasToc(s)
  {
    var sorted := SortByOrder(s);
    if HasToc(s) {
      var i :| 0 <= i < |s| && s[i].name == "toc";
      assert s[i] in multiset(sorted);
    }
    if HasToc(sorted) {
      var i :| 0 <= i < |sorted| && sorted[i].name == "toc";
      assert sorted[i] in multiset(s);
    }
  }

  /** A section drops out of the document: its render failed or is blank. */
  predicate Dropped(x: TemplateSection, ctx: Context, render: Renderer) {
    render(x.content, ctx).None? || IsBlank(render(x.content, ctx).value)
  }

  // ----- The document's layout -------------------------------------------

  /** The positions in `s` of the sections that show up, ascending. */
  function VisibleIndices(s: seq<TemplateSection>, ctx: Context, render: Renderer): (idx: seq<int>)
    ensures forall k :: 0 <= k < |idx| ==> 0 <= idx[k] < |s|
    decreases |s|
  {
    if s == [] then []
    else
      var pre := VisibleIndices(s[..|s| - 1], ctx, render);
      if Dropped(s[|s| - 1], ctx, render) then pre else pre + [|s| - 1]
  }

  /** The positions are those of visible sections, strictly ascending, and
      every visible section's position is among them. */
  lemma {:induction false} VisibleIndicesExact(s: seq<TemplateSection>, ctx: Context, render: Renderer)
    ensures var idx := VisibleIndices(s, ctx, render);
            (forall k :: 0 <= k < |idx| ==> 0 <= idx[k] < |s| && !Dropped(s[idx[k]], ctx, render))
            && (forall k, l :: 0 <= k < l < |idx| ==> idx[k] < idx[l])
            && (forall i :: 0 <= i < |s| && !Dropped(s[i], ctx, render) ==> i in idx)
    decreases |s|
  {
    if s != [] {
      var init := s[..|s| - 1];
      var pre := VisibleIndices(init, ctx, render);
      VisibleIndicesExact(init, ctx, render);
      forall k | 0 <= k < |pre|
        ensures s[pre[k]] == init[pre[k]]
      {
      }
      forall i | 0 <= i < |s| - 1
        ensures s[i] == init[i]
      {
      }
    }
  }

  /** The texts of the sections that show up, in the order of `s`. */
  function VisibleTexts(s: seq<TemplateSection>, ctx: Context, render: Renderer): (parts: seq<string>)
    ensures |parts| == |VisibleIndices(s, ctx, render)|
    ensures forall k :: 0 <= k < |parts| ==>
              render(s[VisibleIndices(s, ctx, render)[k]].content, ctx) == Some(parts[k])
  {
    var idx := VisibleIndices(s, ctx, render);
    VisibleIndicesExact(s, ctx, render);
    assert forall k :: 0 <= k < |idx| ==> 0 <= idx[k] < |s| && render(s[idx[k]].content, ctx).Some?;
    seq(|idx|, k requires 0 <= k < |idx| && 0 <= idx[k] < |s| && render(s[idx[k]].content, ctx).Some?
               => render(s[idx[k]].content, ctx).value)
  }

  /** What the last section of a non-empty `s` adds to the visible texts. */
  lemma VisibleTextsSnoc(s: seq<TemplateSection>, ctx: Context, render: Renderer)
    requires s != []
    ensures var init, x := s[..|s| - 1], s[|s| - 1];
            VisibleTexts(s, ctx, render)
            == VisibleTexts(init, ctx, render)
               + (if Dropped(x, ctx, render) then [] else [render(x.content, ctx).value])
  {
    var init, x := s[..|s| - 1], s[|s| - 1];
    var pre, idx := VisibleIndices(init, ctx, render), VisibleIndices(s, ctx, render);
    var before, after := VisibleTexts(init, ctx, render), VisibleTexts(s, ctx, render);
    assert idx == pre + (if Dropped(x, ctx, render) then [] else [|s| - 1]);
    assert after[..|pre|] == before by {
      forall k | 0 <= k < |pre|
        ensures after[k] == before[k]
      {
        assert idx[k] == pre[k];
        assert s[pre[k]] == init[pre[k]];
      }
    }
    if Dropped(x, ctx, render) {
      assert after == after[..|pre|];
    } else {
      assert idx[|pre|] == |s| - 1;
      assert after == after[..|pre|] + [after[|pre|]];
    }
  }

  /** What the last section of a non-empty `s` adds to the kept parts. */
  lemma RenderSectionsSnoc(s: seq<TemplateSection>, ctx: Context, render: Renderer)
    requires s != []
    ensures var init, x := s[..|s| - 1], s[|s| - 1];
            RenderSections(s, ctx, render)
            == RenderSections(init, ctx, render)
               + (if Dropped(x, ctx, render) then [] else [render(x.content, ctx).value])
  {
    var init, x := s[..|s| - 1], s[|s| - 1];
    assert s == init + [x] + [];
    if Dropped(x, ctx, render) {
      DroppedSectionContributesNothing(init, x, [], ctx, render);
    } else {
      KeptSectionContributesItsText(init, x, [], ctx, render);
    }
  }

  /** The parts the rendering loop keeps are the visible sections' texts, one
      per visible section, in order. */
  lemma {:induction false} RenderSectionsAreVisibleTexts(s: seq<TemplateSection>, ctx: Context, render: Renderer)
    ensures RenderSections(s, ctx, render) == VisibleTexts(s, ctx, render)
    decreases |s|
  {
    if s != [] {
      RenderSectionsAreVisibleTexts(s[..|s| - 1], ctx, render);
      VisibleTextsSnoc(s, ctx, render);
      RenderSectionsSnoc(s, ctx, render);
    }
  }

  /** Section `x` shows up in the document ahead of section `y`. */
  predicate ShownBefore(sorted: seq<TemplateSection>, ctx: Context, render: Renderer,
                        x: TemplateSection, y: TemplateSection)
  {
    var idx := VisibleIndices(sorted, ctx, render);
    exists k, l :: 0 <= k < l < |idx| && sorted[idx[k]] == x && sorted[idx[l]] == y
  }

  /** In a sorted sequence, a lower `order` sits at an earlier position. */
  lemma SortedPositions(sorted: seq<TemplateSection>, i: int, j: int)
    requires SortedByOrder(sorted) && 0 <= i < |sorted| && 0 <= j < |sorted|
    requires sorted[i].order < sorted[j].order
    ensures i < j
  {
  }

  /** In a strictly ascending sequence, a smaller value sits at an earlier position. */
  lemma AscendingPositions(idx: seq<int>, k: int, l: int)
    requires forall a, b :: 0 <= a < b < |idx| ==> idx[a] < idx[b]
    requires 0 <= k < |idx| && 0 <= l < |idx| && idx[k] < idx[l]
    ensures k < l
  {
  }

  /** In a sorted sequence, of two visible sections the one with the lower
      `order` shows up first. */
  lemma SortedShownBefore(sorted: seq<TemplateSection>, ctx: Context, render: Renderer,
                          x: TemplateSection, y: TemplateSection)
    requires SortedByOrder(sorted) && x in sorted && y in sorted && x.order < y.order
    requires !Dropped(x, ctx, render) && !Dropped(y, ctx, render)
    ensures ShownBefore(sorted, ctx, render, x, y)
  {
    var i :| 0 <= i < |sorted| && sorted[i] == x;
    var j :| 0 <= j < |sorted| && sorted[j] == y;
    SortedPositions(sorted, i, j);
    var idx := VisibleIndices(sorted, ctx, render);
    VisibleIndicesExact(sorted, ctx, render);
    assert i in idx && j in idx;
    var k :| 0 <= k < |idx| && idx[k] == i;
    var l :| 0 <= l < |idx| && idx[l] == j;
    AscendingPositions(idx, k, l);
  }

  /** Of two visible sections of a template, the one with the lower `order`
      comes first in the document. */
  lemma LowerOrderShownFirst(t: Template, ctx: Context, render: Renderer, x: TemplateSection, y: TemplateSection)
    requires x in t.sections && y in t.sections && x.order < y.order
    requires var c := Compose(t, ctx, render).context;
             !Dropped(x, c, render) && !Dropped(y, c, render)
    ensures var r := Compose(t, ctx, render);
            var sorted := SortByOrder(t.sections);
            r.text == Join(VisibleTexts(sorted, r.context, render), "\n")
            && ShownBefore(sorted, r.context, render, x, y)
  {
    var r := Compose(t, ctx, render);
    SortKeepsMembers(t.sections);
    SortedShownBefore(SortByOrder(t.sections), r.context, render, x, y);
  }

  /** Each part of a join occurs in the joined text. */
  lemma {:induction false} JoinContains(parts: seq<string>, sep: string, i: nat)
    requires i < |parts|
    ensures Contains(Join(parts, sep), parts[i])
    decreases |parts|
  {
    var whole := Join(parts, sep);
    if i == 0 {
      assert OccursAt(whole, parts[0], 0);
    } else {
      JoinContains(parts[1..], sep, i - 1);
      var rest := Join(parts[1..], sep);
      var k: nat :| k <= |rest| && OccursAt(rest, parts[i], k);
      var pre := parts[0] + sep;
      assert whole == pre + rest;
      assert (pre + rest)[|pre| + k..|pre| + k + |parts[i]|] == rest[k..k + |parts[i]|];
      assert OccursAt(whole, parts[i], |pre| + k);
    }
  }

  /** Sorting keeps exactly the sections it was given. */
  lemma SortKeepsMembers(s: seq<TemplateSection>)
    ensures forall x :: x in SortByOrder(s) <==> x in s
  {
    var r := SortByOrder(s);
    forall x
      ensures x in r <==> x in s
    {
      assert x in r <==> x in multiset(r);
      assert x in s <==> x in multiset(s);
    }
  }

  /** No part survives exactly when every section is dropped. */
  lemma NothingRenderedIffAllDropped(sorted: seq<TemplateSection>, ctx: Context, render: Renderer)
    ensures RenderSections(sorted, ctx, render) == [] <==> forall x :: x in sorted ==> Dropped(x, ctx, render)
  {
    var parts := RenderSections(sorted, ctx, render);
    if parts != [] {
      assert parts[0] in parts;
      var i :| 0 <= i < |sorted| && render(sorted[i].content, ctx) == Some(parts[0]);
      assert !Dropped(sorted[i], ctx, render);
    }
  }

  /** Joining non-empty parts gives the empty text only for no parts. */
  lemma JoinEmptyIff(parts: seq<string>, sep: string)
    requires forall i :: 0 <= i < |parts| ==> parts[i] != ""
    ensures Join(parts, sep) == "" <==> parts == []
  {
  }

  /** The document is empty exactly when every section of the template fails
      or renders blank against the context it is rendered with. */
  lemma EmptyDocumentIffAllDropped(t: Template, ctx: Context, render: Renderer)
    ensures var r := Compose(t, ctx, render);
            r.text == "" <==> forall x :: x in t.sections ==> Dropped(x, r.context, render)
  {
    var r := Compose(t, ctx, render);
    var sorted := SortByOrder(t.sections);
    var parts := RenderSections(sorted, r.context, render);
    assert r.text == Join(parts, "\n");
    SortKeepsMembers(t.sections);
    NothingRenderedIffAllDropped(sorted, r.context, render);
    forall i | 0 <= i < |parts|
      ensures parts[i] != ""
    {
      assert parts[i] in parts;
    }
    JoinEmptyIff(parts, "\n");
  }

  /** Every section that renders to visible text shows up in the document. */
  lemma VisibleSectionInDocument(t: Template, ctx: Context, render: Renderer, x: TemplateSection)
    requires x in t.sections
    requires !Dropped(x, Compose(t, ctx, render).context, render)
    ensures var r := Compose(t, ctx, render);
            Contains(r.text, render(x.content, r.context).value)
  {
    var r := Compose(t, ctx, render);
    var sorted := SortByOrder(t.sections);
    var parts := RenderSections(sorted, r.context, render);
    assert r.text == Join(parts, "\n");
    SortKeepsMembers(t.sections);
    var i :| 0 <= i < |sorted| && sorted[i] == x;
    var text := render(x.content, r.context).value;
    assert text in parts;
    var j :| 0 <= j < |parts| && parts[j] == text;
    JoinContains(parts, "\n", j);
  }

  /** Composing again with the context the first call left behind gives the same
      document and leaves that context as it is. */
  lemma ComposeIdempotent(t: Template, ctx: Context, render: Renderer)
    ensures var r := Compose(t, ctx, render);
            Compose(t, r.context, render) == r
  {
    ContextWithTocIdempotent(SortByOrder(t.sections), ctx);
  }
}
