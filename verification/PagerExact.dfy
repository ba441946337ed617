/** Which runs of pages reproduce the full conversion: exactly those whose pages render every
    message they cover as the full conversion does. */
module PagerExact {
  import opened Prelude
  import opened HistoryModel
  import opened HistorySource
  import opened Entries
  import opened Cuts
  import opened PageSpec
  import opened Pager

  // ---------------------------------------------------------------------------------
  // Entries know their message
  // ---------------------------------------------------------------------------------

  predicate Below(es: seq<Entry>, k: nat) {
    forall j :: 0 <= j < |es| ==> es[j].order < k
  }

  predicate AtLeast(es: seq<Entry>, k: nat) {
    forall j :: 0 <= j < |es| ==> es[j].order >= k
  }

  lemma {:induction false} Aligned(a: seq<Entry>, b: seq<Entry>, c: seq<Entry>, d: seq<Entry>, j: nat)
    requires a + b == c + d && |a| <= j < |c|
    ensures j - |a| < |b| && b[j - |a|] == c[j]
  {
    assert (a + b)[j] == (c + d)[j];
  }

  lemma {:induction false} NotLonger(a: seq<Entry>, b: seq<Entry>, c: seq<Entry>, d: seq<Entry>, k: nat)
    requires a + b == c + d && Below(c, k) && AtLeast(b, k)
    ensures |c| <= |a|
  {
    if |a| < |c| {
      Aligned(a, b, c, d, |a|);
    }
  }

  lemma {:induction false} SplitIsUnique(a: seq<Entry>, b: seq<Entry>, c: seq<Entry>, d: seq<Entry>, k: nat)
    requires Below(a, k) && Below(c, k) && AtLeast(b, k) && AtLeast(d, k)
    ensures a + b == c + d <==> a == c && b == d
  {
    if a + b == c + d {
      NotLonger(a, b, c, d, k);
      NotLonger(c, d, a, b, k);
      assert a == (a + b)[..|a|] && c == (c + d)[..|a|];
      assert b == (a + b)[|a|..] && d == (c + d)[|a|..];
    }
  }

  /** `parts[k]` holds entries of message `base + k`. */
  predicate Placed(parts: seq<seq<Entry>>, base: nat) {
    forall k :: 0 <= k < |parts| ==> Below(parts[k], base + k + 1) && AtLeast(parts[k], base + k)
  }

  lemma {:induction false} FlattenPlaced(parts: seq<seq<Entry>>, base: nat)
    requires Placed(parts, base)
    ensures AtLeast(Flatten(parts), base) && Below(Flatten(parts), base + |parts|)
  {
    if parts != [] {
      assert Placed(parts[1..], base + 1);
      FlattenPlaced(parts[1..], base + 1);
      assert Below(parts[0], base + 0 + 1) && AtLeast(parts[0], base + 0);
    }
  }

  lemma {:induction false} FlattenSameIff(p: seq<seq<Entry>>, q: seq<seq<Entry>>, base: nat)
    requires |p| == |q| && Placed(p, base) && Placed(q, base)
    ensures Flatten(p) == Flatten(q) <==> p == q
  {
    if p != [] {
      assert Placed(p[1..], base + 1) && Placed(q[1..], base + 1);
      FlattenSameIff(p[1..], q[1..], base + 1);
      FlattenPlaced(p[1..], base + 1);
      FlattenPlaced(q[1..], base + 1);
      assert Below(p[0], base + 0 + 1) && Below(q[0], base + 0 + 1);
      SplitIsUnique(p[0], Flatten(p[1..]), q[0], Flatten(q[1..]), base + 1);
      assert p == [p[0]] + p[1..] && q == [q[0]] + q[1..];
    }
  }

  lemma {:induction false} PartsPlaced(s: Session, src: Source, lo: nat, hi: nat, start: nat)
    requires lo <= start <= hi <= |s.msgs| == |src.turns|
    ensures Placed(WindowParts(s, src, lo, hi)[start - lo..], start) && Placed(FullParts(s, src)[start..hi], start)
  {
    hide WindowRows, FullRows, EntriesOf;
    var w, f := WindowParts(s, src, lo, hi)[start - lo..], FullParts(s, src)[start..hi];
    forall k | 0 <= k < |w| ensures Below(w[k], start + k + 1) && AtLeast(w[k], start + k) {
      EntriesPlaced(src, start + k, WindowRows(s, lo, hi, start + k));
    }
    forall k | 0 <= k < |f| ensures Below(f[k], start + k + 1) && AtLeast(f[k], start + k) {
      EntriesPlaced(src, start + k, FullRows(s, start + k));
    }
  }

  lemma {:induction false} EntriesPlaced(src: Source, i: nat, rows: seq<Row>)
    requires i < |src.turns|
    ensures Below(EntriesOf(src, i, rows), i + 1) && AtLeast(EntriesOf(src, i, rows), i)
  {
  }

  // ---------------------------------------------------------------------------------
  // Exact pages, exact runs
  // ---------------------------------------------------------------------------------

  /** The page ending at `hi` renders every message it covers as the full conversion does. */
  ghost predicate PageAlike(s: Session, src: Source, hi: nat, req: Request)
    requires 0 < hi <= |s.msgs| == |src.turns| && req.turns > 0
  {
    forall i :: PageStart(s, src, hi, req) <= i < hi ==> MessageAlike(s, src, WindowStart(src, hi, req.turns), hi, i)
  }

  ghost predicate MessageAlike(s: Session, src: Source, lo: nat, hi: nat, i: int)
    requires hi <= |s.msgs| == |src.turns|
  {
    lo <= i < hi ==> EntriesOf(src, i, WindowRows(s, lo, hi, i)) == EntriesOf(src, i, FullRows(s, i))
  }

  lemma {:induction false} PageStartInWindow(s: Session, src: Source, hi: nat, req: Request)
    requires 0 < hi <= |s.msgs| == |src.turns| && req.turns > 0
    ensures WindowStart(src, hi, req.turns) <= PageStart(s, src, hi, req) < hi
    ensures var lo, start := WindowStart(src, hi, req.turns), PageStart(s, src, hi, req);
            PageEntries(s, src, hi, req) == Flatten(WindowParts(s, src, lo, hi)[start - lo..])
  {
    hide WindowRows, WindowStart, CutStart, CutEntries;
    var lo := WindowStart(src, hi, req.turns);
    CutKeepsSuffix(WindowParts(s, src, lo, hi), lo, req.entries, req.bytes);
  }

  lemma {:induction false} AlikeParts(s: Session, src: Source, lo: nat, start: nat, hi: nat)
    requires lo <= start <= hi <= |s.msgs| == |src.turns|
    ensures WindowParts(s, src, lo, hi)[start - lo..] == FullParts(s, src)[start..hi] <==>
            forall i :: start <= i < hi ==> MessageAlike(s, src, lo, hi, i)
  {
    hide WindowRows, FullRows, EntriesOf;
    var w, f := WindowParts(s, src, lo, hi)[start - lo..], FullParts(s, src)[start..hi];
    forall k | 0 <= k < hi - start
      ensures w[k] == EntriesOf(src, start + k, WindowRows(s, lo, hi, start + k))
      ensures f[k] == EntriesOf(src, start + k, FullRows(s, start + k))
      ensures w[k] == f[k] <==> MessageAlike(s, src, lo, hi, start + k)
    {
    }
    if forall i :: start <= i < hi ==> MessageAlike(s, src, lo, hi, i) {
      forall k | 0 <= k < hi - start ensures w[k] == f[k] {
        assert MessageAlike(s, src, lo, hi, start + k);
      }
    }
    if w == f {
      forall i | start <= i < hi ensures MessageAlike(s, src, lo, hi, i) {
        assert w[i - start] == f[i - start];
      }
    }
  }

  /** A page is its block of the full conversion exactly when it renders alike. */
  lemma {:induction false} PageExactIff(s: Session, src: Source, hi: nat, req: Request)
    requires 0 < hi <= |s.msgs| == |src.turns| && req.turns > 0
    ensures PageEntries(s, src, hi, req) == Flatten(FullParts(s, src)[PageStart(s, src, hi, req)..hi]) <==>
              PageAlike(s, src, hi, req)
  {
    hide WindowRows, FullRows, WindowStart, PageStart, PageEntries, WindowParts, FullParts, MessageAlike;
    PageStartInWindow(s, src, hi, req);
    var lo, start := WindowStart(src, hi, req.turns), PageStart(s, src, hi, req);
    PartsPlaced(s, src, lo, hi, start);
    FlattenSameIff(WindowParts(s, src, lo, hi)[start - lo..], FullParts(s, src)[start..hi], start);
    AlikeParts(s, src, lo, start, hi);
  }

  lemma {:induction false} PageIsPlaced(s: Session, src: Source, hi: nat, req: Request)
    requires 0 < hi <= |s.msgs| == |src.turns| && req.turns > 0
    ensures AtLeast(PageEntries(s, src, hi, req), PageStart(s, src, hi, req)) && Below(PageEntries(s, src, hi, req), hi)
  {
    hide WindowRows, FullRows, WindowStart, PageStart, PageEntries, WindowParts, FullParts;
    PageStartInWindow(s, src, hi, req);
    var lo, start := WindowStart(src, hi, req.turns), PageStart(s, src, hi, req);
    PartsPlaced(s, src, lo, hi, start);
    FlattenPlaced(WindowParts(s, src, lo, hi)[start - lo..], start);
  }

  /** Where the page of request `j` ends. */
  function EndOf(src: Source, reqs: seq<Request>, j: nat): int
    requires j < |reqs|
  {
    UpperBound(src, Normalize(reqs[j]))
  }

  ghost predicate RunAlikeAt(s: Session, src: Source, reqs: seq<Request>, j: nat)
    requires src.total == |s.msgs| == |src.turns| && j < |reqs|
  {
    0 < EndOf(src, reqs, j) <= |s.msgs| ==> PageAlike(s, src, EndOf(src, reqs, j), Normalize(reqs[j]))
  }

  lemma {:induction false} ChainLengths(s: Session, src: Source, reqs: seq<Request>, pages: seq<Page>)
    requires src.total == |s.msgs| == |src.turns| && Chain(s, src, reqs, pages)
    ensures |reqs| == |pages| > 0
  {
  }

  lemma {:induction false} JoinStep(pages: seq<Page>, j: nat)
    requires j < |pages|
    ensures PagesJoined(pages[j..]) == PagesJoined(pages[j + 1..]) + pages[j].entries
    ensures j + 1 == |pages| ==> PagesJoined(pages[j..]) == pages[j].entries
  {
    assert pages[j..][0] == pages[j] && pages[j..][1..] == pages[j + 1..];
    if j + 1 == |pages| {
      assert pages[j + 1..] == [];
      assert [] + pages[j].entries == pages[j].entries;
    }
  }

  lemma {:induction false} JoinedBelow(s: Session, src: Source, reqs: seq<Request>, pages: seq<Page>, j: nat, end: nat)
    requires src.total == |s.msgs| == |src.turns| && Chain(s, src, reqs, pages) && j < |pages|
    requires src.revKnown || src.revision == 0
    requires 0 < end <= src.total && pages[j] == PageEndingAt(s, src, end, Normalize(reqs[j]))
    ensures Below(PagesJoined(pages[j..]), end)
    decreases |pages| - j
  {
    hide PageEndingAt, PageEntries, PageStart, PagesJoined, UpperBound, Chain;
    ChainLengths(s, src, reqs, pages);
    var req := Normalize(reqs[j]);
    PageEndingFacts(s, src, end, req);
    PageIsPlaced(s, src, end, req);
    JoinStep(pages, j);
    if j + 1 < |pages| {
      ChainStep(s, src, reqs, pages, j, end);
      JoinedBelow(s, src, reqs, pages, j + 1, PageStart(s, src, end, req));
    }
  }

  /** One page and everything older than it, against their part of the full conversion. */
  lemma {:induction false} JoinExactIff(s: Session, src: Source, end: nat, req: Request, older: seq<Entry>)
    requires 0 < end <= |s.msgs| == |src.turns| && req.turns > 0
    requires Below(older, PageStart(s, src, end, req))
    ensures older + PageEntries(s, src, end, req) == Flatten(FullParts(s, src)[..end]) <==>
            older == Flatten(FullParts(s, src)[..PageStart(s, src, end, req)]) && PageAlike(s, src, end, req)
  {
    hide PageEntries, PageStart, FullParts, PageAlike, Flatten, Below, AtLeast;
    var start, full := PageStart(s, src, end, req), FullParts(s, src);
    PageStartInWindow(s, src, end, req);
    PageIsPlaced(s, src, end, req);
    PageExactIff(s, src, end, req);
    FlattenSplit(full, start, end);
    FullBelow(s, src, start, end);
    SplitIsUnique(older, PageEntries(s, src, end, req), Flatten(full[..start]), Flatten(full[start..end]), start);
  }

  lemma {:induction false} RunExactBelow(s: Session, src: Source, reqs: seq<Request>, pages: seq<Page>, j: nat,
                                         end: nat)
    requires src.total == |s.msgs| == |src.turns| && Chain(s, src, reqs, pages) && j < |pages|
    requires src.revKnown || src.revision == 0
    requires && 0 < end <= src.total && end == EndOf(src, reqs, j)
             && pages[j] == PageEndingAt(s, src, end, Normalize(reqs[j]))
    requires pages[|pages| - 1].next.NoCursor?
    ensures PagesJoined(pages[j..]) == Flatten(FullParts(s, src)[..end]) <==>
            forall m :: j <= m < |pages| ==> RunAlikeAt(s, src, reqs, m)
    decreases |pages| - j
  {
    hide PageEndingAt, PageEntries, PageStart, FullParts, PageAlike, PagesJoined, Flatten, Below, UpperBound, Chain;
    ChainLengths(s, src, reqs, pages);
    var req := Normalize(reqs[j]);
    var start := PageStart(s, src, end, req);
    PageEndingFacts(s, src, end, req);
    JoinStep(pages, j);
    assert RunAlikeAt(s, src, reqs, j) <==> PageAlike(s, src, end, req);
    if j + 1 < |pages| {
      ChainStep(s, src, reqs, pages, j, end);
      RunExactBelow(s, src, reqs, pages, j + 1, start);
      JoinedBelow(s, src, reqs, pages, j + 1, start);
      JoinExactIff(s, src, end, req, PagesJoined(pages[j + 1..]));
    } else {
      OldestExactIff(s, src, end, req);
    }
  }

  lemma {:induction false} OldestExactIff(s: Session, src: Source, end: nat, req: Request)
    requires 0 < end <= |s.msgs| == |src.turns| && req.turns > 0 && PageStart(s, src, end, req) == 0
    ensures PageEntries(s, src, end, req) == Flatten(FullParts(s, src)[..end]) <==> PageAlike(s, src, end, req)
  {
    hide PageEntries, PageStart, FullParts, PageAlike;
    JoinExactIff(s, src, end, req, []);
    assert FullParts(s, src)[..0] == [];
    assert [] + PageEntries(s, src, end, req) == PageEntries(s, src, end, req);
  }

  lemma {:induction false} FullBelow(s: Session, src: Source, start: nat, end: nat)
    requires start <= end <= |s.msgs| == |src.turns|
    ensures Below(Flatten(FullParts(s, src)[..start]), start) && AtLeast(Flatten(FullParts(s, src)[start..end]), start)
  {
    hide WindowRows, FullRows, WindowParts, FullParts;
    PartsPlaced(s, src, 0, start, 0);
    FlattenPlaced(FullParts(s, src)[0..start], 0);
    assert FullParts(s, src)[0..start] == FullParts(s, src)[..start];
    PartsPlaced(s, src, start, end, start);
    FlattenPlaced(FullParts(s, src)[start..end], start);
  }

  /** The exact law: a complete run of pages joins to the full conversion if and only if every
      page renders every message it covers as the full conversion does. */
  lemma {:induction false} RunExactIff(s: Session, src: Source, reqs: seq<Request>, pages: seq<Page>)
    requires src.total == |s.msgs| == |src.turns| && Follows(s, src, reqs, pages)
    requires src.revKnown || src.revision == 0
    requires pages[|pages| - 1].next.NoCursor?
    ensures PagesJoined(pages) == Flatten(FullParts(s, src)) <==>
              forall m :: 0 <= m < |pages| ==> RunAlikeAt(s, src, reqs, m)
  {
    hide WindowRows, FullRows, PageAlike;
    FullSlice(pages);
    if src.total == 0 {
      FirstPageEmpty(s, src, reqs, pages);
      assert PagesJoined(pages) == PagesJoined(pages[1..]) + pages[0].entries;
    } else {
      FirstPage(s, src, reqs, pages);
      RunExactBelow(s, src, reqs, pages, 0, src.total);
      FullSlice(FullParts(s, src));
    }
  }

  // ---------------------------------------------------------------------------------
  // Runs exist
  // ---------------------------------------------------------------------------------

  /** Whatever page of this turn budget is asked for, the request returns. */
  ghost predicate AllReturn(s: Session, src: Source, req: Request)
    requires src.total == |s.msgs| == |src.turns|
  {
    forall hi :: 0 < hi <= src.total ==> PageReturns(s, src, hi, Normalize(req))
  }

  lemma {:induction false} RunFrom(s: Session, src: Source, req: Request, hi: nat)
    returns (reqs: seq<Request>, pages: seq<Page>)
    requires src.total == |s.msgs| == |src.turns| && (src.revKnown || src.revision == 0) && AllReturn(s, src, req)
    requires 0 < hi <= src.total && Answers(s, src, req, PageEndingAt(s, src, hi, Normalize(req)))
    ensures Chain(s, src, reqs, pages) && reqs[0] == req && pages[|pages| - 1].next.NoCursor?
    ensures forall j :: 0 <= j < |reqs| ==> reqs[j] == req.(cursor := reqs[j].cursor)
    decreases hi
  {
    hide PageEndingAt, SlicePage, SliceReturns, PageStart, PageReturns;
    var page, start := PageEndingAt(s, src, hi, Normalize(req)), PageStart(s, src, hi, Normalize(req));
    PageEndingFacts(s, src, hi, Normalize(req));
    if start == 0 {
      reqs, pages := [req], [page];
    } else {
      var older := req.(cursor := page.next);
      OlderReturns(s, src, req, older, start);
      var restReqs, restPages := RunFrom(s, src, older, start);
      reqs, pages := [req] + restReqs, [page] + restPages;
      ChainGrows(s, src, req, page, restReqs, restPages);
    }
  }

  lemma {:induction false} OlderReturns(s: Session, src: Source, req: Request, older: Request, start: nat)
    requires src.total == |s.msgs| == |src.turns| && (src.revKnown || src.revision == 0) && AllReturn(s, src, req)
    requires 0 < start < src.total && older == req.(cursor := Encoded(OwnCursor(src, start)))
    ensures AllReturn(s, src, older) && Answers(s, src, older, PageEndingAt(s, src, start, Normalize(older)))
  {
    hide PageEndingAt, SlicePage, SliceReturns, RowsSplitAt, WindowStart;
    OwnCursorContinues(s, src, Normalize(older), start);
    forall hi | 0 < hi <= src.total ensures PageReturns(s, src, hi, Normalize(older)) {
      assert PageReturns(s, src, hi, Normalize(req));
    }
  }

  lemma {:induction false} ChainGrows(s: Session, src: Source, req: Request, page: Page, reqs: seq<Request>,
                                      pages: seq<Page>)
    requires src.total == |s.msgs| == |src.turns| && Chain(s, src, reqs, pages)
    requires Answers(s, src, req, page) && page.next.Encoded? && reqs[0].cursor == page.next
    ensures Chain(s, src, [req] + reqs, [page] + pages)
  {
    hide Answers;
    var rs, ps := [req] + reqs, [page] + pages;
    forall j | 0 <= j < |rs| ensures Answers(s, src, rs[j], ps[j]) {
      if j > 0 {
        assert ps[j] == pages[j - 1] && rs[j] == reqs[j - 1];
      }
    }
    forall j | 0 <= j < |ps| - 1 ensures ps[j].next.Encoded? && rs[j + 1].cursor == ps[j].next {
      if j > 0 {
        assert ps[j] == pages[j - 1] && rs[j + 1] == reqs[j];
      }
    }
  }

  /** For every budget under which requests return there is a complete run: paging from the latest
      page reaches the start. */
  lemma {:induction false} CompleteRun(s: Session, src: Source, req: Request)
    returns (reqs: seq<Request>, pages: seq<Page>)
    requires src.total == |s.msgs| == |src.turns| && (src.revKnown || src.revision == 0) && req.cursor.NoCursor?
    requires AllReturn(s, src, req)
    ensures Follows(s, src, reqs, pages) && reqs[0] == req && pages[|pages| - 1].next.NoCursor?
    ensures forall j :: 0 <= j < |reqs| ==> reqs[j] == req.(cursor := reqs[j].cursor)
  {
    hide WindowRows, PageEndingAt, PageReturns;
    if src.total == 0 {
      reqs, pages := [req], [EmptyPage(src)];
    } else {
      assert PageReturns(s, src, src.total, Normalize(req));
      reqs, pages := RunFrom(s, src, req, src.total);
    }
  }
}
