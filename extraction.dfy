/**
 * `extract_documents` (app.py): walk every page of every uploaded PDF,
 * normalise its text, keep the non-empty pages as page records tagged with
 * their provenance, and report progress after every page.
 *
 * The PDF reader is abstracted away: a prepared upload carries the text that
 * `page.extract_text()` returns for each page (`None` when it returns nothing).
 */
module Extraction {
  import opened Optional
  import opened Text

  /** One entry of `prepare_pdfs`: display name, content digest and the page texts. */
  datatype PreparedPdf = PreparedPdf(name: string, digest: string, pages: seq<Option<string>>)

  /** A page-level `Document`: its text and the metadata `source`, `page` and `digest`. */
  datatype PageDoc = PageDoc(content: string, source: string, page: nat, digest: string)

  /** One `progress.progress(seen / denominator, "Reading <source> (page <page>/<pageCount>)")` call. */
  datatype Progress = Progress(seen: nat, denominator: nat, source: string, page: nat, pageCount: nat)

  /** `max(n, 1)`, the divisor of the progress fraction. */
  function AtLeastOne(n: nat): (r: nat)
    ensures r >= 1 && r >= n
    ensures n >= 1 ==> r == n
    ensures n == 0 ==> r == 1
  {
    if n < 1 then 1 else n
  }

  /** `(page.extract_text() or "").replace("\x00", "").strip()`. */
  function Normalize(raw: Option<string>): (t: string)
    ensures NUL !in t
    ensures t == [] || (!IsSpace(t[0]) && !IsSpace(t[|t| - 1]))
  {
    Strip(RemoveNul(raw.GetOr("")))
  }

  /** A page is dropped exactly when its text is missing or holds only NULs and whitespace. */
  lemma NormalizeEmptyIff(raw: Option<string>)
    ensures Normalize(raw) == [] <==> forall c :: c in raw.GetOr("") ==> c == NUL || IsSpace(c)
  {
    var s := raw.GetOr("");
    RemoveNulKeepsOthers(s);
    StripIsSlice(RemoveNul(s));
  }

  /** What every emitted page record satisfies. */
  predicate WellFormedPage(p: PageDoc) {
    && p.content != []
    && NUL !in p.content
    && !IsSpace(p.content[0])
    && !IsSpace(p.content[|p.content| - 1])
  }

  /** How one page's raw text becomes the text of its record. */
  type Normaliser = Option<string> -> string

  /** `p` is page number `p.page` of `d`, with `d`'s name and digest and that page's text under `norm`. */
  predicate FromDocument(p: PageDoc, d: PreparedPdf, norm: Normaliser) {
    && p.source == d.name
    && p.digest == d.digest
    && 1 <= p.page <= |d.pages|
    && p.content == norm(d.pages[p.page - 1])
  }

  /** The records the inner loop emits for the first `n` pages of `d`. */
  function DocPages(d: PreparedPdf, n: nat, norm: Normaliser): seq<PageDoc>
    requires n <= |d.pages|
  {
    if n == 0 then []
    else
      var text := norm(d.pages[n - 1]);
      DocPages(d, n - 1, norm) + (if text != [] then [PageDoc(text, d.name, n, d.digest)] else [])
  }

  /** The records emitted for the documents `ds`, in document order. */
  function ExtractedBy(ds: seq<PreparedPdf>, norm: Normaliser): seq<PageDoc> {
    if ds == [] then []
    else
      var d := ds[|ds| - 1];
      ExtractedBy(ds[..|ds| - 1], norm) + DocPages(d, |d.pages|, norm)
  }

  /** The `docs` list `extract_documents` returns for `ds`. */
  function Extracted(ds: seq<PreparedPdf>): seq<PageDoc> {
    ExtractedBy(ds, Normalize)
  }

  /** The `total_pages` count: every page of every document, empty or not. */
  function TotalPages(ds: seq<PreparedPdf>): nat {
    if ds == [] then 0 else TotalPages(ds[..|ds| - 1]) + |ds[|ds| - 1].pages|
  }

  /** Some page of some document has non-empty text under `norm`. */
  ghost predicate HasText(ds: seq<PreparedPdf>, norm: Normaliser) {
    exists j, i :: 0 <= j < |ds| && 0 <= i < |ds[j].pages| && norm(ds[j].pages[i]) != []
  }

  /**
   * The reports the inner loop makes for the first `n` pages of `d`, after
   * `seenBefore` pages of earlier documents, out of `total` pages in all.
   */
  function DocReports(d: PreparedPdf, seenBefore: nat, total: nat, n: nat): seq<Progress>
    requires n <= |d.pages|
  {
    if n == 0 then []
    else DocReports(d, seenBefore, total, n - 1) + [Progress(seenBefore + n, AtLeastOne(total), d.name, n, |d.pages|)]
  }

  /** Every progress report `extract_documents` makes for `ds`, when `total` pages were counted. */
  function ProgressTrace(ds: seq<PreparedPdf>, total: nat): seq<Progress> {
    if ds == [] then []
    else
      var d := ds[|ds| - 1];
      ProgressTrace(ds[..|ds| - 1], total) + DocReports(d, TotalPages(ds[..|ds| - 1]), total, |d.pages|)
  }

  /**
   * The outer loops of `extract_documents`: the first counts the pages, the
   * second visits the documents in order, reading each with `ReadPages`.
   * Each report's `seen` is one more than the last, never above the total,
   * and the divisor `max(total_pages, 1)` is never zero.
   */
  method ExtractDocuments(prepared: seq<PreparedPdf>)
    returns (docs: seq<PageDoc>, totalPages: nat, progress: seq<Progress>)
    ensures docs == Extracted(prepared)
    ensures totalPages == TotalPages(prepared)
    ensures progress == ProgressTrace(prepared, totalPages)
    ensures |progress| == totalPages
    ensures forall k :: 0 <= k < |progress| ==>
      && progress[k].seen == k + 1
      && progress[k].seen <= totalPages
      && progress[k].denominator == AtLeastOne(totalPages)
      && progress[k].denominator >= 1
      && 1 <= progress[k].page <= progress[k].pageCount
  {
    docs, totalPages := [], 0;
    var j := 0;
    while j < |prepared|
      invariant 0 <= j <= |prepared|
      invariant totalPages == TotalPages(prepared[..j])
    {
      PrefixStep(prepared, j, 0, Normalize);
      totalPages := totalPages + |prepared[j].pages|;
      j := j + 1;
    }
    assert prepared[..|prepared|] == prepared;

    var seen: nat := 0;
    progress := [];
    j := 0;
    while j < |prepared|
      invariant 0 <= j <= |prepared|
      invariant docs == Extracted(prepared[..j])
      invariant seen == TotalPages(prepared[..j])
      invariant progress == ProgressTrace(prepared[..j], totalPages)
    {
      var records, reports := ReadPages(prepared[j], Normalize, totalPages, seen);
      PrefixStep(prepared, j, totalPages, Normalize);
      docs := docs + records;
      progress := progress + reports;
      seen := seen + |prepared[j].pages|;
      j := j + 1;
    }
    assert prepared[..|prepared|] == prepared;
    ProgressTraceFacts(prepared, totalPages);
  }

  /**
   * The inner loop of `extract_documents` over the pages of one document,
   * numbered from 1: it normalises each page's text with `norm` (`Normalize`
   * when called from `ExtractDocuments`), emits a record for each
   * page with text, and reports progress after every page, counting on from
   * the `seenBefore` pages of earlier documents.
   *
   * The normaliser is a parameter even though `ExtractDocuments` always
   * passes `Normalize`: inside the loop a page's text is then just `norm`
   * applied to the raw text, and the definition of `Normalize` stays out of
   * the loop's proof.
   */
  method ReadPages(item: PreparedPdf, norm: Normaliser, totalPages: nat, seenBefore: nat)
    returns (records: seq<PageDoc>, reports: seq<Progress>)
    ensures records == DocPages(item, |item.pages|, norm)
    ensures reports == DocReports(item, seenBefore, totalPages, |item.pages|)
  {
    records, reports := [], [];
    var seen := seenBefore;
    var n := |item.pages|;
    var i := 1;
    while i <= n
      invariant 1 <= i <= n + 1
      invariant records == DocPages(item, i - 1, norm)
      invariant reports == DocReports(item, seenBefore, totalPages, i - 1)
      invariant seen == seenBefore + i - 1
    {
      var text := norm(item.pages[i - 1]);
      if text != [] {
        records := records + [PageDoc(text, item.name, i, item.digest)];
      }
      assert records == DocPages(item, i, norm);
      seen := seen + 1;
      reports := reports + [Progress(seen, AtLeastOne(totalPages), item.name, i, n)];
      i := i + 1;
    }
  }

  /** One report per page of `d`, in page order, counting on from `seenBefore`. */
  lemma {:induction false} DocReportsFacts(d: PreparedPdf, seenBefore: nat, total: nat, n: nat)
    requires n <= |d.pages|
    ensures |DocReports(d, seenBefore, total, n)| == n
    ensures forall k :: 0 <= k < n ==>
      var r := DocReports(d, seenBefore, total, n)[k];
      r.seen == seenBefore + k + 1 && r.denominator == AtLeastOne(total) &&
      r.source == d.name && r.page == k + 1 && r.pageCount == |d.pages|
  {
    if n > 0 {
      DocReportsFacts(d, seenBefore, total, n - 1);
    }
  }

  /**
   * The progress counter: one report per page of every document, the `k`-th
   * saying `k + 1` pages were seen, never more than the `total` counted, over
   * a divisor that is never zero.
   */
  lemma {:induction false} ProgressTraceFacts(ds: seq<PreparedPdf>, total: nat)
    requires TotalPages(ds) <= total
    ensures |ProgressTrace(ds, total)| == TotalPages(ds)
    ensures forall k :: 0 <= k < |ProgressTrace(ds, total)| ==>
      ProgressTrace(ds, total)[k].seen == k + 1 && ProgressTrace(ds, total)[k].seen <= total
    ensures forall k :: 0 <= k < |ProgressTrace(ds, total)| ==>
      ProgressTrace(ds, total)[k].denominator == AtLeastOne(total) && ProgressTrace(ds, total)[k].denominator >= 1
    ensures forall k :: 0 <= k < |ProgressTrace(ds, total)| ==>
      1 <= ProgressTrace(ds, total)[k].page <= ProgressTrace(ds, total)[k].pageCount
  {
    if ds != [] {
      var init := ds[..|ds| - 1];
      var d := ds[|ds| - 1];
      ProgressTraceFacts(init, total);
      DocReportsFacts(d, TotalPages(init), total, |d.pages|);
      var front, back := ProgressTrace(init, total), DocReports(d, TotalPages(init), total, |d.pages|);
      assert ProgressTrace(ds, total) == front + back;
      assert TotalPages(ds) == TotalPages(init) + |d.pages|;
      var trace := ProgressTrace(ds, total);
      forall k | 0 <= k < |trace|
        ensures trace[k].seen == k + 1 && trace[k].seen <= total
        ensures trace[k].denominator == AtLeastOne(total) && trace[k].denominator >= 1
        ensures 1 <= trace[k].page <= trace[k].pageCount
      {
        if k < |front| {
          assert trace[k] == front[k];
        } else {
          assert trace[k] == back[k - |front|];
        }
      }
    }
  }

  /** Visiting document `j` extends the records, the page count and the reports of the documents before it. */
  lemma PrefixStep(ds: seq<PreparedPdf>, j: nat, total: nat, norm: Normaliser)
    requires j < |ds|
    ensures ExtractedBy(ds[..j + 1], norm) == ExtractedBy(ds[..j], norm) + DocPages(ds[j], |ds[j].pages|, norm)
    ensures TotalPages(ds[..j + 1]) == TotalPages(ds[..j]) + |ds[j].pages|
    ensures ProgressTrace(ds[..j + 1], total) ==
      ProgressTrace(ds[..j], total) + DocReports(ds[j], TotalPages(ds[..j]), total, |ds[j].pages|)
  {
    assert ds[..j + 1][..j] == ds[..j];
  }

  /** The pages of the first `j` documents are among all the pages. */
  lemma {:induction false} TotalPagesPrefix(ds: seq<PreparedPdf>, j: nat)
    requires j <= |ds|
    ensures TotalPages(ds[..j]) <= TotalPages(ds)
  {
    if j < |ds| {
      assert ds[..|ds| - 1][..j] == ds[..j];
      TotalPagesPrefix(ds[..|ds| - 1], j);
    } else {
      assert ds[..j] == ds;
    }
  }

  lemma {:induction false} DocPagesFromDocument(d: PreparedPdf, n: nat, norm: Normaliser)
    requires n <= |d.pages|
    ensures forall p :: p in DocPages(d, n, norm) ==> FromDocument(p, d, norm) && p.page <= n && p.content != []
  {
    if n > 0 {
      DocPagesFromDocument(d, n - 1, norm);
    }
  }

  /**
   * Every emitted record is a page of one of the documents, with that
   * document's name and digest, a page number between 1 and its page count,
   * and that page's text; and that text is non-empty.
   */
  lemma {:induction false} ExtractedProvenance(ds: seq<PreparedPdf>, norm: Normaliser)
    ensures forall p :: p in ExtractedBy(ds, norm) ==>
      p.content != [] && exists j :: 0 <= j < |ds| && FromDocument(p, ds[j], norm)
  {
    if ds != [] {
      var init := ds[..|ds| - 1];
      var d := ds[|ds| - 1];
      ExtractedProvenance(init, norm);
      DocPagesFromDocument(d, |d.pages|, norm);
      forall p | p in ExtractedBy(ds, norm)
        ensures p.content != [] && exists j :: 0 <= j < |ds| && FromDocument(p, ds[j], norm)
      {
        if p in ExtractedBy(init, norm) {
          var j :| 0 <= j < |init| && FromDocument(p, init[j], norm);
          assert init[j] == ds[j];
        } else {
          assert FromDocument(p, ds[|ds| - 1], norm);
        }
      }
    }
  }

  /** Every record `extract_documents` emits has non-empty text, no NUL and no surrounding whitespace. */
  lemma ExtractedWellFormed(ds: seq<PreparedPdf>)
    ensures forall p :: p in Extracted(ds) ==> WellFormedPage(p)
  {
    ExtractedProvenance(ds, Normalize);
    forall p | p in Extracted(ds) ensures WellFormedPage(p) {
      var j :| 0 <= j < |ds| && FromDocument(p, ds[j], Normalize);
      var t := Normalize(ds[j].pages[p.page - 1]);
      assert p.content == t;
    }
  }

  lemma {:induction false} DocPagesComplete(d: PreparedPdf, n: nat, i: nat, norm: Normaliser)
    requires i < n <= |d.pages|
    requires norm(d.pages[i]) != []
    ensures PageDoc(norm(d.pages[i]), d.name, i + 1, d.digest) in DocPages(d, n, norm)
  {
    if i < n - 1 {
      DocPagesComplete(d, n - 1, i, norm);
    }
  }

  /** A page whose text is non-empty is never dropped: its record, numbered `i + 1`, is emitted. */
  lemma {:induction false} ExtractedComplete(ds: seq<PreparedPdf>, j: nat, i: nat, norm: Normaliser)
    requires j < |ds| && i < |ds[j].pages|
    requires norm(ds[j].pages[i]) != []
    ensures PageDoc(norm(ds[j].pages[i]), ds[j].name, i + 1, ds[j].digest) in ExtractedBy(ds, norm)
  {
    var init := ds[..|ds| - 1];
    if j == |ds| - 1 {
      DocPagesComplete(ds[j], |ds[j].pages|, i, norm);
    } else {
      assert init[j] == ds[j];
      ExtractedComplete(init, j, i, norm);
    }
  }

  /** Records come document by document: the records of `a + b` are those of `a`, then those of `b`. */
  lemma {:induction false} ExtractedAppend(a: seq<PreparedPdf>, b: seq<PreparedPdf>, norm: Normaliser)
    ensures ExtractedBy(a + b, norm) == ExtractedBy(a, norm) + ExtractedBy(b, norm)
  {
    if b != [] {
      var ab := a + b;
      assert ab[..|ab| - 1] == a + b[..|b| - 1];
      assert ab[|ab| - 1] == b[|b| - 1];
      ExtractedAppend(a, b[..|b| - 1], norm);
    } else {
      assert a + b == a;
    }
  }

  /** Within one document, records appear in strictly ascending page order, numbered from 1 to its page count. */
  lemma {:induction false} DocPagesAscending(d: PreparedPdf, n: nat, norm: Normaliser)
    requires n <= |d.pages|
    ensures forall x, y :: 0 <= x < y < |DocPages(d, n, norm)| ==>
      DocPages(d, n, norm)[x].page < DocPages(d, n, norm)[y].page
  {
    if n > 0 {
      DocPagesAscending(d, n - 1, norm);
      DocPagesFromDocument(d, n - 1, norm);
      var before := DocPages(d, n - 1, norm);
      assert forall x :: 0 <= x < |before| ==> before[x] in before;
    }
  }

  lemma {:induction false} DocPagesCount(d: PreparedPdf, n: nat, norm: Normaliser)
    requires n <= |d.pages|
    ensures |DocPages(d, n, norm)| <= n
  {
    if n > 0 {
      DocPagesCount(d, n - 1, norm);
    }
  }

  /** Dropped pages still count: there are never more records than `total_pages`. */
  lemma {:induction false} ExtractedCount(ds: seq<PreparedPdf>, norm: Normaliser)
    ensures |ExtractedBy(ds, norm)| <= TotalPages(ds)
  {
    if ds != [] {
      ExtractedCount(ds[..|ds| - 1], norm);
      DocPagesCount(ds[|ds| - 1], |ds[|ds| - 1].pages|, norm);
    }
  }

  lemma {:induction false} DocPagesEmptyIff(d: PreparedPdf, n: nat, norm: Normaliser)
    requires n <= |d.pages|
    ensures DocPages(d, n, norm) == [] <==> forall i :: 0 <= i < n ==> norm(d.pages[i]) == []
  {
    if n > 0 {
      DocPagesEmptyIff(d, n - 1, norm);
    }
  }

  /** Some page of `d` has non-empty text under `norm`. */
  ghost predicate DocHasText(d: PreparedPdf, norm: Normaliser) {
    exists i :: 0 <= i < |d.pages| && norm(d.pages[i]) != []
  }

  lemma HasTextSnoc(ds: seq<PreparedPdf>, norm: Normaliser)
    requires ds != []
    ensures HasText(ds, norm) <==> HasText(ds[..|ds| - 1], norm) || DocHasText(ds[|ds| - 1], norm)
  {
    var init := ds[..|ds| - 1];
    if HasText(ds, norm) {
      var j, i :| 0 <= j < |ds| && 0 <= i < |ds[j].pages| && norm(ds[j].pages[i]) != [];
      if j < |init| {
        assert init[j] == ds[j];
      }
    }
    if HasText(init, norm) {
      var j, i :| 0 <= j < |init| && 0 <= i < |init[j].pages| && norm(init[j].pages[i]) != [];
      assert ds[j] == init[j];
    }
  }

  /** No record is emitted exactly when no page of any document has text. */
  lemma {:induction false} ExtractedEmptyIff(ds: seq<PreparedPdf>, norm: Normaliser)
    ensures ExtractedBy(ds, norm) == [] <==> !HasText(ds, norm)
  {
    if ds != [] {
      var d := ds[|ds| - 1];
      ExtractedEmptyIff(ds[..|ds| - 1], norm);
      DocPagesEmptyIff(d, |d.pages|, norm);
      HasTextSnoc(ds, norm);
    }
  }
}
