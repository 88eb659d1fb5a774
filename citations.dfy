/**
 * `render_sources` (app.py): one chip label per retrieved chunk, built from
 * the chunk's `source` and `page` metadata, then de-duplicated keeping the
 * first occurrence of each label in order.
 */
module Citations {
  import opened Optional
  import opened Text

  /** The metadata keys a chunk may carry; a missing key is `None`. */
  datatype ChunkMeta = ChunkMeta(source: Option<string>, page: Option<nat>)

  /** A retrieved chunk; `metadata` is `None` when the chunk has none (or it is empty). */
  datatype SourceChunk = SourceChunk(content: string, metadata: Option<ChunkMeta>)

  /** `meta.get("source", "PDF")`. */
  function SourceOf(d: SourceChunk): string {
    d.metadata.GetOr(ChunkMeta(None, None)).source.GetOr("PDF")
  }

  /** `meta.get("page")`, `None` when the key is missing. */
  function PageOf(d: SourceChunk): Option<nat> {
    d.metadata.GetOr(ChunkMeta(None, None)).page
  }

  /** How the page is written in the chip: its decimal number, or `?` when it is missing. */
  function PageText(page: Option<nat>): (r: string)
    ensures '"' !in r
  {
    match page
    case None => "?"
    case Some(n) =>
      var r := NatToString(n);
      assert forall k :: 0 <= k < |r| ==> r[k] != '"';
      r
  }

  const ChipHead: string := "<span class=\"chip\" title=\"Page "
  const ChipMid: string := " \U{B7} p."
  const ChipTail: string := "</span>"

  /** The chip's HTML: `<span class="chip" title="Page {page}">{src} · p.{page}</span>`. */
  function ChipLabel(src: string, page: string): string {
    ChipHead + page + "\">" + src + ChipMid + page + ChipTail
  }

  /** The label of one chunk; it depends on the chunk's source and page only. */
  function ChipOf(d: SourceChunk): string {
    ChipLabel(SourceOf(d), PageText(PageOf(d)))
  }

  /** The `chips` list: one label per chunk, in retrieval order. */
  function Chips(ds: seq<SourceChunk>): (r: seq<string>)
    ensures |r| == |ds|
    ensures forall k :: 0 <= k < |ds| ==> r[k] == ChipOf(ds[k])
  {
    if ds == [] then [] else Chips(ds[..|ds| - 1]) + [ChipOf(ds[|ds| - 1])]
  }

  /** The labels of `s` with every repeat of an earlier label dropped. */
  function FirstOccurrences<T(==)>(s: seq<T>): seq<T> {
    if s == [] then []
    else
      var init := s[..|s| - 1];
      if s[|s| - 1] in init then FirstOccurrences(init) else FirstOccurrences(init) + [s[|s| - 1]]
  }

  /**
   * `render_sources`: nothing is rendered for an empty source list; otherwise
   * the chips are built and de-duplicated with a `seen` set, keeping order.
   */
  method RenderSources(sourceDocuments: seq<SourceChunk>) returns (shown: Option<seq<string>>)
    ensures shown.None? <==> sourceDocuments == []
    ensures shown.Some? ==> shown.value == FirstOccurrences(Chips(sourceDocuments))
  {
    if sourceDocuments == [] {
      return None;
    }
    var chips: seq<string> := [];
    var i := 0;
    while i < |sourceDocuments|
      invariant 0 <= i <= |sourceDocuments|
      invariant chips == Chips(sourceDocuments[..i])
    {
      assert sourceDocuments[..i + 1][..i] == sourceDocuments[..i];
      chips := chips + [ChipOf(sourceDocuments[i])];
      i := i + 1;
    }
    assert sourceDocuments[..i] == sourceDocuments;

    var uniq := KeepFirst(chips);
    return Some(uniq);
  }

  /** The de-duplication loop of `render_sources`: a `seen` set and the `uniq` list it fills. */
  method KeepFirst<T(==)>(items: seq<T>) returns (uniq: seq<T>)
    ensures uniq == FirstOccurrences(items)
  {
    var seen: set<T> := {};
    uniq := [];
    var i := 0;
    while i < |items|
      invariant 0 <= i <= |items|
      invariant uniq == FirstOccurrences(items[..i])
      invariant forall c :: c in seen <==> c in items[..i]
    {
      var c := items[i];
      assert items[..i + 1][..i] == items[..i];
      if c !in seen {
        uniq := uniq + [c];
        seen := seen + {c};
      }
      i := i + 1;
    }
    assert items[..i] == items;
  }

  /** No label is kept twice. */
  lemma {:induction false} FirstOccurrencesDistinct<T>(s: seq<T>)
    ensures forall x, y :: 0 <= x < y < |FirstOccurrences(s)| ==> FirstOccurrences(s)[x] != FirstOccurrences(s)[y]
  {
    if s != [] {
      var init := s[..|s| - 1];
      FirstOccurrencesDistinct(init);
      FirstOccurrencesCovers(init);
    }
  }

  /** Every label of the input is kept, and nothing else is. */
  lemma {:induction false} FirstOccurrencesCovers<T>(s: seq<T>)
    ensures forall c :: c in FirstOccurrences(s) <==> c in s
  {
    if s != [] {
      var init := s[..|s| - 1];
      FirstOccurrencesCovers(init);
      assert s == init + [s[|s| - 1]];
    }
  }

  /** The positions in `s` of the labels `FirstOccurrences` keeps. */
  function FirstPositions<T(==)>(s: seq<T>): seq<nat> {
    if s == [] then []
    else
      var init := s[..|s| - 1];
      if s[|s| - 1] in init then FirstPositions(init) else FirstPositions(init) + [|s| - 1]
  }

  /**
   * The output is a subsequence of the input taken at strictly increasing
   * positions, each the first position where that label occurs: labels keep
   * their first-occurrence order.
   */
  lemma {:induction false} FirstOccurrencesAreFirst<T>(s: seq<T>)
    ensures |FirstPositions(s)| == |FirstOccurrences(s)|
    ensures forall k :: 0 <= k < |FirstPositions(s)| ==>
      FirstPositions(s)[k] < |s| && s[FirstPositions(s)[k]] == FirstOccurrences(s)[k]
    ensures forall k :: 0 <= k < |FirstPositions(s)| ==>
      forall m :: 0 <= m < FirstPositions(s)[k] ==> s[m] != s[FirstPositions(s)[k]]
    ensures forall x, y :: 0 <= x < y < |FirstPositions(s)| ==> FirstPositions(s)[x] < FirstPositions(s)[y]
  {
    if s != [] {
      var init := s[..|s| - 1];
      FirstOccurrencesAreFirst(init);
      var p := FirstPositions(s);
      var q := FirstPositions(init);
      forall k | 0 <= k < |q|
        ensures q[k] < |init| && s[q[k]] == init[q[k]]
      {
      }
      if s[|s| - 1] !in init {
        forall m | 0 <= m < |s| - 1
          ensures s[m] != s[|s| - 1]
        {
          assert init[m] == s[m];
        }
      }
    }
  }

  /** A list without repeats is left as it is, so de-duplicating twice changes nothing more. */
  lemma {:induction false} FirstOccurrencesOfDistinct<T>(s: seq<T>)
    requires forall x, y :: 0 <= x < y < |s| ==> s[x] != s[y]
    ensures FirstOccurrences(s) == s
  {
    if s != [] {
      var init := s[..|s| - 1];
      FirstOccurrencesOfDistinct(init);
      assert s[|s| - 1] !in init by {
        forall m | 0 <= m < |init| ensures init[m] != s[|s| - 1] {
          assert init[m] == s[m];
        }
      }
      assert s == init + [s[|s| - 1]];
    }
  }

  /** Where the page text and the quote after it stand in a label. */
  lemma ChipLabelLayout(src: string, page: string)
    ensures |ChipLabel(src, page)| > |ChipHead| + |page|
    ensures ChipLabel(src, page)[|ChipHead| + |page|] == '"'
    ensures forall k :: 0 <= k < |page| ==> ChipLabel(src, page)[|ChipHead| + k] == page[k]
  {
  }

  /** A label is read back: its page text ends at the first quote and its source sits between fixed markers. */
  lemma ChipLabelInjective(src1: string, page1: string, src2: string, page2: string)
    requires '"' !in page1 && '"' !in page2
    ensures ChipLabel(src1, page1) == ChipLabel(src2, page2) <==> src1 == src2 && page1 == page2
  {
    var l1, l2 := ChipLabel(src1, page1), ChipLabel(src2, page2);
    if l1 == l2 {
      var h := |ChipHead|;
      ChipLabelLayout(src1, page1);
      ChipLabelLayout(src2, page2);
      assert |page1| == |page2|;
      assert page1 == l1[h..h + |page1|] == page2;
      var a := h + |page1| + 2;
      assert src1 == l1[a..a + |src1|];
      assert src2 == l2[a..a + |src2|];
    }
  }

  /**
   * Two chunks get the same chip exactly when they name the same source and
   * the same page (after the "PDF" and "?" defaults), whatever their text.
   */
  lemma ChipCollapse(d1: SourceChunk, d2: SourceChunk)
    ensures ChipOf(d1) == ChipOf(d2) <==> SourceOf(d1) == SourceOf(d2) && PageOf(d1) == PageOf(d2)
  {
    ChipLabelInjective(SourceOf(d1), PageText(PageOf(d1)), SourceOf(d2), PageText(PageOf(d2)));
    if PageText(PageOf(d1)) == PageText(PageOf(d2)) {
      match (PageOf(d1), PageOf(d2))
      case (Some(a), Some(b)) => NatToStringInjective(a, b);
      case _ =>
    }
  }
}
