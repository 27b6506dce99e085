/**
 * The PDF export as a layout computation: where each audit's header lands,
 * on which page, and under which number. Drawing is not modelled; how many
 * lines the summary and each failure point wrap to is given per record.
 */
module PdfReport {
  import opened Wrappers
  import opened Types
  import AuditCard

  /** Where a new page starts writing. */
  const TOP := 20
  /** Past this height the next record starts on a new page. */
  const BREAK_AFTER := 250
  /** The page height of the document (A4, in millimetres). */
  const PAGE_HEIGHT := 297

  /** How many lines the summary and each failure point of one record wrap to. */
  datatype Wrapping = Wrapping(summaryLines: nat, pointLines: seq<nat>)

  /** One record's header: its number, the record, and where it was drawn. */
  datatype Entry = Entry(number: nat, audit: AuditRecord, page: nat, y: int)

  datatype Report = Report(totalRecords: nat, entries: seq<Entry>, pages: nat)

  /** One line count per failure point of each record. */
  predicate WellWrapped(audits: seq<AuditRecord>, wraps: seq<Wrapping>) {
    |wraps| == |audits| &&
    forall i :: 0 <= i < |audits| ==> |wraps[i].pointLines| == |audits[i].failurePoints|
  }

  function Sum(xs: seq<nat>): nat {
    if xs == [] then 0 else Sum(xs[..|xs| - 1]) + xs[|xs| - 1]
  }

  /** How far below its header a record draws: the metadata and disposition
      lines, the wrapped summary, the critiques when there are any, and the
      gap above the closing rule. */
  function Extent(audit: AuditRecord, wrap: Wrapping): nat {
    7 + 5 + 8 + wrap.summaryLines * 5
    + (if |audit.failurePoints| > 0 then 2 + 5 + Sum(wrap.pointLines) * 5 else 0)
    + 10
  }

  /** How far one record moves the cursor down: its extent and the space
      after the rule. */
  function Advance(audit: AuditRecord, wrap: Wrapping): nat {
    Extent(audit, wrap) + 15
  }

  /** Where a record's header goes when the cursor stands at `y`. */
  function HeaderY(y: int): int {
    if y > BREAK_AFTER then TOP else y
  }

  function PageOf(y: int, page: nat): nat {
    if y > BREAK_AFTER then page + 1 else page
  }

  /** The cursor and page count before record `k` is placed: the title block
      leaves the cursor at 50 on page 1. */
  function Cursor(audits: seq<AuditRecord>, wraps: seq<Wrapping>, k: nat): (c: (int, nat))
    requires WellWrapped(audits, wraps) && k <= |audits|
  {
    if k == 0 then (TOP + 10 + 20, 1)
    else
      var (y, page) := Cursor(audits, wraps, k - 1);
      (HeaderY(y) + Advance(audits[k - 1], wraps[k - 1]), PageOf(y, page))
  }

  /** Record `k` as the export places it. */
  function EntryAt(audits: seq<AuditRecord>, wraps: seq<Wrapping>, k: nat): Entry
    requires WellWrapped(audits, wraps) && k < |audits|
  {
    var (y, page) := Cursor(audits, wraps, k);
    Entry(|audits| - k, audits[k], PageOf(y, page), HeaderY(y))
  }

  /** The cursor never rises above the top margin, and each record adds at
      most one page. */
  lemma {:induction false} CursorBounds(audits: seq<AuditRecord>, wraps: seq<Wrapping>, k: nat)
    requires WellWrapped(audits, wraps) && k <= |audits|
    ensures Cursor(audits, wraps, k).0 >= TOP
    ensures 1 <= Cursor(audits, wraps, k).1 <= k + 1
  {
    if k > 0 {
      CursorBounds(audits, wraps, k - 1);
    }
  }

  /** Every header is drawn between the top margin and the break height, on a
      page the report has, and numbered N - k. */
  lemma EntryPlacement(audits: seq<AuditRecord>, wraps: seq<Wrapping>, k: nat)
    requires WellWrapped(audits, wraps) && k < |audits|
    ensures var e := EntryAt(audits, wraps, k);
      && TOP <= e.y <= BREAK_AFTER
      && 1 <= e.page <= Cursor(audits, wraps, |audits|).1
      && e.number == |audits| - k
      && e.audit == audits[k]
  {
    CursorBounds(audits, wraps, k);
    PagesMonotone(audits, wraps, k + 1, |audits|);
  }

  lemma {:induction false} PagesMonotone(audits: seq<AuditRecord>, wraps: seq<Wrapping>, j: nat, k: nat)
    requires WellWrapped(audits, wraps) && j <= k <= |audits|
    ensures Cursor(audits, wraps, j).1 <= Cursor(audits, wraps, k).1
    decreases k - j
  {
    if j < k {
      PagesMonotone(audits, wraps, j, k - 1);
    }
  }

  /** A new page starts before record k exactly when the cursor has passed the
      break height, and the next record's page is the same or the next one. */
  lemma PageBreakRule(audits: seq<AuditRecord>, wraps: seq<Wrapping>, k: nat)
    requires WellWrapped(audits, wraps) && k + 1 < |audits|
    ensures var (e, f) := (EntryAt(audits, wraps, k), EntryAt(audits, wraps, k + 1));
      && (f.page == e.page + 1 <==> e.y + Advance(audits[k], wraps[k]) > BREAK_AFTER)
      && (f.page == e.page <==> e.y + Advance(audits[k], wraps[k]) <= BREAK_AFTER)
      && (f.page == e.page + 1 ==> f.y == TOP)
  {
  }

  /** The report draws a record's critiques, at least 7 units of height,
      exactly when its card shows them. */
  lemma CritiquesDrawnLikeCard(audit: AuditRecord, wrap: Wrapping)
    ensures AuditCard.HasFailures(audit) <==> Extent(audit, wrap) >= 7 + 5 + 8 + wrap.summaryLines * 5 + 10 + 7
  {
  }

  /** Records are not split across pages, so a record whose summary wraps to
      50 lines or more runs past the bottom of the page it starts on. */
  lemma LongRecordRunsPastPage(audits: seq<AuditRecord>, wraps: seq<Wrapping>, k: nat)
    requires WellWrapped(audits, wraps) && k < |audits|
    requires wraps[k].summaryLines >= 50
    ensures EntryAt(audits, wraps, k).y + Extent(audits[k], wraps[k]) > PAGE_HEIGHT
  {
    CursorBounds(audits, wraps, k);
  }

  /** `handleDownloadPDF`: nothing when there are no records; otherwise one
      header per record, in list order, numbered from N down to 1. */
  method Export(audits: seq<AuditRecord>, wraps: seq<Wrapping>) returns (doc: Option<Report>)
    requires WellWrapped(audits, wraps)
    ensures doc.None? <==> audits == []
    ensures doc.Some? ==>
      && doc.value.totalRecords == |audits|
      && |doc.value.entries| == |audits|
      && doc.value.pages == Cursor(audits, wraps, |audits|).1
      && forall k :: 0 <= k < |audits| ==> doc.value.entries[k] == EntryAt(audits, wraps, k)
  {
    if |audits| == 0 {
      return None;
    }
    var y := TOP;
    y := y + 10;
    y := y + 20;
    var page := 1;
    var entries := [];
    var index := 0;
    while index < |audits|
      invariant 0 <= index <= |audits|
      invariant (y, page) == Cursor(audits, wraps, index)
      invariant |entries| == index
      invariant forall k :: 0 <= k < index ==> entries[k] == EntryAt(audits, wraps, k)
    {
      var audit := audits[index];
      if y > BREAK_AFTER {
        page := page + 1;
        y := TOP;
      }
      entries := entries + [Entry(|audits| - index, audit, page, y)];
      y := y + 7;
      y := y + 5;
      y := y + 8;
      y := y + wraps[index].summaryLines * 5;
      if |audit.failurePoints| > 0 {
        y := y + 2;
        y := y + 5;
        var points := wraps[index].pointLines;
        var start := y;
        var j := 0;
        while j < |points|
          invariant 0 <= j <= |points|
          invariant y == start + Sum(points[..j]) * 5
        {
          assert points[..j + 1][..j] == points[..j];
          y := y + points[j] * 5;
          j := j + 1;
        }
        assert points[..j] == points;
      }
      y := y + 10;
      y := y + 15;
      index := index + 1;
    }
    doc := Some(Report(|audits|, entries, page));
  }

  /** What the export promises, stated on EntryAt: each record once,
      in order, numbered N down to 1, each header within the page's writing
      area. */
  lemma ExportedEntries(audits: seq<AuditRecord>, wraps: seq<Wrapping>, k: nat)
    requires WellWrapped(audits, wraps) && 0 <= k < |audits|
    ensures EntryAt(audits, wraps, k).audit == audits[k]
    ensures EntryAt(audits, wraps, k).number == |audits| - k
    ensures k > 0 ==> EntryAt(audits, wraps, k).number < EntryAt(audits, wraps, k - 1).number
    ensures TOP <= EntryAt(audits, wraps, k).y <= BREAK_AFTER
  {
    EntryPlacement(audits, wraps, k);
  }

  // ---------------------------------------------------------------------------
  // The break test sees only where the cursor stands, not how tall the next
  // record is, so a record that would fit on a page can still be cut off.
  // ---------------------------------------------------------------------------

  /** The lowest point content may reach: the page height less the margin. */
  const BOTTOM := PAGE_HEIGHT - 15

  /** Two records without critiques: a 31-line summary leaves the cursor at
      exactly 250, so the second record, 50 high, starts there and its rule
      falls at 300, below the page, although it would fit on a fresh page. */
  lemma FittingRecordClipped(first: AuditRecord, second: AuditRecord)
    requires |first.failurePoints| == 0 && |second.failurePoints| == 0
    ensures var (audits, wraps) := ([first, second], [Wrapping(31, []), Wrapping(4, [])]);
      && WellWrapped(audits, wraps)
      && EntryAt(audits, wraps, 1).y == BREAK_AFTER
      && EntryAt(audits, wraps, 1).page == 1
      && EntryAt(audits, wraps, 1).y + Extent(second, Wrapping(4, [])) > PAGE_HEIGHT
      && TOP + Extent(second, Wrapping(4, [])) <= BOTTOM
  {
    var (audits, wraps) := ([first, second], [Wrapping(31, []), Wrapping(4, [])]);
    assert Advance(first, wraps[0]) == 200;
    assert Cursor(audits, wraps, 0) == (50, 1);
    assert Cursor(audits, wraps, 1) == (250, 1);
  }

  /** The corrected break test: a new page also starts when the record would
      pass the bottom, unless the cursor is already at the top of a page. */
  predicate Breaks(y: int, audit: AuditRecord, wrap: Wrapping) {
    y > TOP && (y > BREAK_AFTER || y + Extent(audit, wrap) > BOTTOM)
  }

  function FittedCursor(audits: seq<AuditRecord>, wraps: seq<Wrapping>, k: nat): (c: (int, nat))
    requires WellWrapped(audits, wraps) && k <= |audits|
  {
    if k == 0 then (TOP + 10 + 20, 1)
    else
      var (y, page) := FittedCursor(audits, wraps, k - 1);
      var brk := Breaks(y, audits[k - 1], wraps[k - 1]);
      ((if brk then TOP else y) + Advance(audits[k - 1], wraps[k - 1]), if brk then page + 1 else page)
  }

  function FittedEntryAt(audits: seq<AuditRecord>, wraps: seq<Wrapping>, k: nat): Entry
    requires WellWrapped(audits, wraps) && k < |audits|
  {
    var (y, page) := FittedCursor(audits, wraps, k);
    var brk := Breaks(y, audits[k], wraps[k]);
    Entry(|audits| - k, audits[k], if brk then page + 1 else page, if brk then TOP else y)
  }

  lemma {:induction false} FittedCursorBelowTop(audits: seq<AuditRecord>, wraps: seq<Wrapping>, k: nat)
    requires WellWrapped(audits, wraps) && k <= |audits|
    ensures FittedCursor(audits, wraps, k).0 >= TOP
  {
    if k > 0 {
      FittedCursorBelowTop(audits, wraps, k - 1);
    }
  }

  /** With the corrected test, every record no taller than a page's writing
      area ends above the bottom of the page it starts on, and every header
      still lies between the top margin and the break height. */
  lemma FittedNeverClips(audits: seq<AuditRecord>, wraps: seq<Wrapping>, k: nat)
    requires WellWrapped(audits, wraps) && k < |audits|
    requires TOP + Extent(audits[k], wraps[k]) <= BOTTOM
    ensures FittedEntryAt(audits, wraps, k).y + Extent(audits[k], wraps[k]) <= BOTTOM
    ensures TOP <= FittedEntryAt(audits, wraps, k).y <= BREAK_AFTER
    ensures FittedEntryAt(audits, wraps, k).number == |audits| - k
    ensures FittedEntryAt(audits, wraps, k).audit == audits[k]
  {
    FittedCursorBelowTop(audits, wraps, k);
  }

  /** The export with the corrected break test. */
  method ExportFitted(audits: seq<AuditRecord>, wraps: seq<Wrapping>) returns (doc: Option<Report>)
    requires WellWrapped(audits, wraps)
    ensures doc.None? <==> audits == []
    ensures doc.Some? ==>
      && doc.value.totalRecords == |audits|
      && |doc.value.entries| == |audits|
      && doc.value.pages == FittedCursor(audits, wraps, |audits|).1
      && forall k :: 0 <= k < |audits| ==> doc.value.entries[k] == FittedEntryAt(audits, wraps, k)
  {
    if |audits| == 0 {
      return None;
    }
    var y := TOP + 10 + 20;
    var page := 1;
    var entries := [];
    var index := 0;
    while index < |audits|
      invariant 0 <= index <= |audits|
      invariant (y, page) == FittedCursor(audits, wraps, index)
      invariant |entries| == index
      invariant forall k :: 0 <= k < index ==> entries[k] == FittedEntryAt(audits, wraps, k)
    {
      var audit := audits[index];
      var wrap := wraps[index];
      if y > TOP && (y > BREAK_AFTER || y + Extent(audit, wrap) > BOTTOM) {
        page := page + 1;
        y := TOP;
      }
      entries := entries + [Entry(|audits| - index, audit, page, y)];
      y := y + Advance(audit, wrap);
      index := index + 1;
    }
    doc := Some(Report(|audits|, entries, page));
  }
}
