/**
 * Reading a run's journal in compact pages (packages/data-store/src/session-run-store.ts, `readCompactPage`).
 */
module CompactPaging {
  // A page is a window of at most `limit` entries past a cursor, with every run snapshot but the window's last
  // left out. A reader follows `nextCursor` until `done`, while writers go on appending between its pages.

  import opened Common
  import opened ActivityJournal

  type Journal = seq<Body>

  /** A gapless journal as a sequence: entry `i` stands at cursor `i`. */
  ghost function Entries(row: Row): Journal
    requires JournalValid(row)
  {
    seq(row.nextCursor, cursor requires 0 <= cursor < row.nextCursor => row.events[cursor])
  }

  datatype Entry = Entry(cursor: nat, body: Body)

  datatype Page = BadCursor | Page(events: seq<Entry>, nextCursor: int, done: bool)

  predicate ValidCursor(journal: Journal, after: int) {
    after < 0 || after < |journal|
  }

  function WindowEnd(journal: Journal, after: int, limit: nat): int {
    var first := if after < 0 then 0 else after + 1;
    if first + limit < |journal| then first + limit else |journal|
  }

  function WindowStart(after: int): int { if after < 0 then 0 else after + 1 }

  /** `max(cursor) WHERE kind = 'run'` over a window, or -1. */
  function LastRunIn(journal: Journal, start: nat, end: nat): int
    requires start <= end <= |journal|
    decreases end
  {
    if start == end then -1
    else if journal[end - 1].RunEvent? then end - 1
    else LastRunIn(journal, start, end - 1)
  }

  /** The rows of [start, end) the query returns when `latest` is the window's last run snapshot. */
  function Retained(journal: Journal, start: nat, end: nat, latest: int): seq<Entry>
    requires start <= end <= |journal|
    decreases end
  {
    if start == end then []
    else
      Retained(journal, start, end - 1, latest)
      + (if journal[end - 1].RunEvent? && end - 1 != latest then [] else [Entry(end - 1, journal[end - 1])])
  }

  function CompactPage(journal: Journal, after: int, limit: nat): Page {
    if !ValidCursor(journal, after) then BadCursor
    else
      var start, end := WindowStart(after), WindowEnd(journal, after, limit);
      if end < start then Page([], after, 0 < limit)
      else
        var events := Retained(journal, start, end, LastRunIn(journal, start, end));
        Page(events,
             if events == [] then after else events[|events| - 1].cursor,
             (if events == [] then 0 else end - start) < limit)
  }

  method FindLastRun(journal: Journal, start: nat, end: nat) returns (latest: int)
    requires start <= end <= |journal|
    ensures latest == LastRunIn(journal, start, end)
  {
    latest := -1;
    for i := start to end
      invariant latest == LastRunIn(journal, start, i)
    {
      if journal[i].RunEvent? { latest := i; }
    }
  }

  method Keep(journal: Journal, start: nat, end: nat, latest: int) returns (events: seq<Entry>)
    requires start <= end <= |journal|
    ensures events == Retained(journal, start, end, latest)
  {
    events := [];
    for i := start to end
      invariant events == Retained(journal, start, i, latest)
    {
      if !journal[i].RunEvent? || i == latest { events := events + [Entry(i, journal[i])]; }
    }
  }

  /** The query itself: one pass to find the window's last snapshot, one to keep what the conversation uses. */
  method ReadCompactPage(journal: Journal, after: int, limit: nat) returns (page: Page)
    ensures page == CompactPage(journal, after, limit)
  {
    if after >= 0 && after >= |journal| { return BadCursor; }
    var start := if after < 0 then 0 else after + 1;
    var end := if start + limit < |journal| then start + limit else |journal|;
    if end < start { return Page([], after, 0 < limit); }
    var latest := FindLastRun(journal, start, end);
    var events := Keep(journal, start, end, latest);
    page := Page(events,
      if events == [] then after else events[|events| - 1].cursor,
      (if events == [] then 0 else end - start) < limit);
  }

  // --- What a page holds ------------------------------------------------------------

  /** The transcript of [0, end): every session event, in order, with its cursor. */
  function Transcript(journal: Journal, end: nat): seq<Entry>
    requires end <= |journal|
  {
    if end == 0 then []
    else Transcript(journal, end - 1) + (if journal[end - 1].RunEvent? then [] else [Entry(end - 1, journal[end - 1])])
  }

  /** What a reader keeps of delivered entries for the conversation, and as the run's state. */
  function SessionEntries(events: seq<Entry>): seq<Entry> {
    if events == [] then []
    else
      SessionEntries(events[..|events| - 1])
      + (if events[|events| - 1].body.RunEvent? then [] else [events[|events| - 1]])
  }

  function HeldRun(events: seq<Entry>): Option<Record> {
    if events == [] then None
    else if events[|events| - 1].body.RunEvent? then Some(events[|events| - 1].body.run)
    else HeldRun(events[..|events| - 1])
  }

  function LatestRunOf(journal: Journal, end: nat): Option<Record>
    requires end <= |journal|
  {
    if end == 0 then None
    else if journal[end - 1].RunEvent? then Some(journal[end - 1].run)
    else LatestRunOf(journal, end - 1)
  }

  lemma {:induction false} Split(a: seq<Entry>, b: seq<Entry>)
    ensures SessionEntries(a + b) == SessionEntries(a) + SessionEntries(b)
    ensures HeldRun(a + b) == if HeldRun(b).Some? then HeldRun(b) else HeldRun(a)
    decreases |b|
  {
    if b == [] {
      assert a + b == a;
    } else {
      Split(a, b[..|b| - 1]);
      assert (a + b)[..|a + b| - 1] == a + b[..|b| - 1];
      assert (a + b)[|a + b| - 1] == b[|b| - 1];
    }
  }

  lemma OneEntry(events: seq<Entry>, e: Entry)
    ensures SessionEntries(events + [e]) == SessionEntries(events) + (if e.body.RunEvent? then [] else [e])
    ensures HeldRun(events + [e]) == if e.body.RunEvent? then Some(e.body.run) else HeldRun(events)
  {
    assert (events + [e])[..|events + [e]| - 1] == events;
  }

  lemma {:induction false} TranscriptGrows(journal: Journal, start: nat, end: nat)
    requires start <= end <= |journal|
    ensures Transcript(journal, start) <= Transcript(journal, end)
    decreases end
  {
    if start < end { TranscriptGrows(journal, start, end - 1); }
  }

  /** A window delivers exactly its session events. */
  lemma {:induction false} RetainedDelivers(journal: Journal, start: nat, end: nat, latest: int)
    requires start <= end <= |journal|
    ensures Transcript(journal, end) ==
              Transcript(journal, start) + SessionEntries(Retained(journal, start, end, latest))
    decreases end
  {
    if start < end {
      var front, e := Retained(journal, start, end - 1, latest), Entry(end - 1, journal[end - 1]);
      RetainedDelivers(journal, start, end - 1, latest);
      OneEntry(front, e);
      assert Retained(journal, start, end, latest) ==
          if journal[end - 1].RunEvent? && end - 1 != latest then front else front + [e];
    }
  }

  /** And its last snapshot, if it has one. */
  lemma {:induction false} RetainedKeepsLatest(journal: Journal, start: nat, end: nat, latest: int)
    requires start <= end <= |journal|
    ensures HeldRun(Retained(journal, start, end, latest)) ==
            if start <= latest < end && journal[latest].RunEvent? then Some(journal[latest].run) else None
    decreases end
  {
    if start < end {
      var front, e := Retained(journal, start, end - 1, latest), Entry(end - 1, journal[end - 1]);
      RetainedKeepsLatest(journal, start, end - 1, latest);
      OneEntry(front, e);
      assert Retained(journal, start, end, latest) ==
          if journal[end - 1].RunEvent? && end - 1 != latest then front else front + [e];
    }
  }

  lemma RetainedHolds(journal: Journal, start: nat, end: nat, latest: int)
    requires start <= end <= |journal|
    ensures Transcript(journal, start) <= Transcript(journal, end)
    ensures SessionEntries(Retained(journal, start, end, latest)) ==
              Transcript(journal, end)[|Transcript(journal, start)|..]
    ensures HeldRun(Retained(journal, start, end, latest)) ==
            if start <= latest < end && journal[latest].RunEvent? then Some(journal[latest].run) else None
  {
    TranscriptGrows(journal, start, end);
    RetainedDelivers(journal, start, end, latest);
    RetainedKeepsLatest(journal, start, end, latest);
  }

  lemma {:induction false} LastRunIsLatest(journal: Journal, start: nat, end: nat)
    requires start <= end <= |journal|
    ensures var latest := LastRunIn(journal, start, end);
            if latest == -1 then LatestRunOf(journal, end) == LatestRunOf(journal, start)
            else
              start <= latest < end && journal[latest].RunEvent?
                  && LatestRunOf(journal, end) == Some(journal[latest].run)
                 && forall i | latest < i < end :: !journal[i].RunEvent?
    decreases end
  {
    if start < end && !journal[end - 1].RunEvent? { LastRunIsLatest(journal, start, end - 1); }
  }

  // --- Following the cursor while the journal grows -------------------------------------

  datatype Reader = Reader(delivered: seq<Entry>, cursor: int, done: bool)

  /**
   * Everything up to the reader's cursor has been delivered: each session
   * event once, in order, and the latest snapshot.
   */
  ghost predicate CaughtUpTo(reader: Reader, journal: Journal) {
    && -1 <= reader.cursor < |journal|
    && SessionEntries(reader.delivered) == Transcript(journal, reader.cursor + 1)
    && HeldRun(reader.delivered) == LatestRunOf(journal, reader.cursor + 1)
  }

  lemma {:induction false} GrowthKeepsPrefix(journal: Journal, longer: Journal, end: nat)
    requires journal <= longer && end <= |journal|
    ensures Transcript(longer, end) == Transcript(journal, end)
    ensures LatestRunOf(longer, end) == LatestRunOf(journal, end)
  {
    if end > 0 { GrowthKeepsPrefix(journal, longer, end - 1); }
  }

  /** The last row of a non-empty window is always retained, so `nextCursor` is the window's end. */
  lemma WindowEndsOnRow(journal: Journal, start: nat, end: nat)
    requires start < end <= |journal|
    ensures var events := Retained(journal, start, end, LastRunIn(journal, start, end));
            events != [] && events[|events| - 1].cursor == end - 1
  {
  }

  lemma WindowCatchesUp(delivered: seq<Entry>, journal: Journal, start: nat, end: nat)
    requires start <= end <= |journal|
    requires SessionEntries(delivered) == Transcript(journal, start)
    requires HeldRun(delivered) == LatestRunOf(journal, start)
    ensures var all := delivered + Retained(journal, start, end, LastRunIn(journal, start, end));
            SessionEntries(all) == Transcript(journal, end) && HeldRun(all) == LatestRunOf(journal, end)
  {
    var latest := LastRunIn(journal, start, end);
    RetainedHolds(journal, start, end, latest);
    LastRunIsLatest(journal, start, end);
    Split(delivered, Retained(journal, start, end, latest));
  }

  /** One page keeps a reader caught up, advances it by the page size, or finishes it at the journal's end. */
  lemma PageAdvances(reader: Reader, journal: Journal, limit: nat) returns (next: Reader)
    requires CaughtUpTo(reader, journal) && limit >= 1
    ensures var page := CompactPage(journal, reader.cursor, limit);
            page.Page? && next == Reader(reader.delivered + page.events, page.nextCursor, page.done)
    ensures CaughtUpTo(next, journal)
    ensures if next.done then next.cursor == |journal| - 1 else next.cursor == reader.cursor + limit
  {
    var page := CompactPage(journal, reader.cursor, limit);
    next := Reader(reader.delivered + page.events, page.nextCursor, page.done);
    var start, end := reader.cursor + 1, WindowEnd(journal, reader.cursor, limit);
    assert WindowStart(reader.cursor) == start <= end;
    WindowCatchesUp(reader.delivered, journal, start, end);
    if start < end { WindowEndsOnRow(journal, start, end); }
  }

  /** Each journal read extends the one read before it. */
  ghost predicate Growing(journals: seq<Journal>) {
    forall i | 0 < i < |journals| :: journals[i - 1] <= journals[i]
  }

  function ReadNext(reader: Reader, journal: Journal, limit: nat): Reader {
    var page := CompactPage(journal, reader.cursor, limit);
    if reader.done || page.BadCursor? then reader
    else Reader(reader.delivered + page.events, page.nextCursor, page.done)
  }

  /** The reader after one page of each journal in turn. */
  function Follow(journals: seq<Journal>, limit: nat): Reader {
    if journals == [] then Reader([], -1, false)
    else ReadNext(Follow(journals[..|journals| - 1], limit), journals[|journals| - 1], limit)
  }

  lemma ReadNextKeepsUp(reader: Reader, journal: Journal, longer: Journal, limit: nat)
    requires CaughtUpTo(reader, journal) && journal <= longer && limit >= 1
    ensures CaughtUpTo(ReadNext(reader, longer, limit), longer)
    ensures if reader.done then ReadNext(reader, longer, limit) == reader
            else if ReadNext(reader, longer, limit).done then ReadNext(reader, longer, limit).cursor == |longer| - 1
            else ReadNext(reader, longer, limit).cursor == reader.cursor + limit
  {
    GrowthKeepsPrefix(journal, longer, reader.cursor + 1);
    if !reader.done { var _ := PageAdvances(reader, longer, limit); }
  }

  /**
   * Compact paging agrees with the full journal, for any page size of at least one and any appends between
   * pages: at every page the reader has each session event up to its cursor once and in order and the newest
   * snapshot there, and its cursor is always accepted; it moves on by whole pages until it is done, and the
   * page that finishes it leaves it at the end of the journal that page was read from.
   */
  lemma {:induction false} FollowingDeliversEverything(journals: seq<Journal>, limit: nat)
    requires journals != [] && Growing(journals) && limit >= 1 && journals[0] != []
    ensures CaughtUpTo(Follow(journals, limit), journals[|journals| - 1])
    ensures ValidCursor(journals[|journals| - 1], Follow(journals, limit).cursor)
    ensures !Follow(journals, limit).done ==> Follow(journals, limit).cursor + 1 >= |journals|
    ensures Follow(journals, limit).done ==>
              exists k :: 0 <= k < |journals| && Follow(journals, limit).cursor == |journals[k]| - 1
  {
    var n := |journals|;
    var front := journals[..n - 1];
    if n == 1 {
      assert CaughtUpTo(Reader([], -1, false), journals[0]);
      ReadNextKeepsUp(Reader([], -1, false), journals[0], journals[0], limit);
      assert Follow(front, limit) == Reader([], -1, false);
    } else {
      FollowingDeliversEverything(front, limit);
      ReadNextKeepsUp(Follow(front, limit), front[n - 2], journals[n - 1], limit);
      if Follow(front, limit).done {
        var k :| 0 <= k < n - 1 && Follow(front, limit).cursor == |front[k]| - 1;
        assert front[k] == journals[k];
      }
    }
  }

  /** A reader of a journal nobody appends to finishes, holding the whole transcript and the latest snapshot. */
  method ReadAll(journal: Journal, limit: nat) returns (delivered: seq<Entry>)
    requires limit >= 1 && journal != []
    ensures SessionEntries(delivered) == Transcript(journal, |journal|)
    ensures HeldRun(delivered) == LatestRunOf(journal, |journal|)
  {
    delivered := [];
    var cursor, done := -1, false;
    while !done
      invariant CaughtUpTo(Reader(delivered, cursor, done), journal)
      invariant done ==> cursor == |journal| - 1
      decreases !done, |journal| - cursor
    {
      var page := ReadCompactPage(journal, cursor, limit);
      ghost var _ := PageAdvances(Reader(delivered, cursor, done), journal, limit);
      delivered, cursor, done := delivered + page.events, page.nextCursor, page.done;
    }
  }

  /** A page size of zero never finishes and never moves. */
  lemma ZeroLimitStalls(journal: Journal, after: int)
    requires ValidCursor(journal, after)
    ensures CompactPage(journal, after, 0) == Page([], after, false)
  {
  }

  /** A finished reader of a stored run holds that run's stored record. */
  lemma {:induction false} FinishedReaderHoldsStoredRecord(row: Row, n: nat)
    requires JournalValid(row) && n <= row.nextCursor
    ensures |Entries(row)| == row.nextCursor
    ensures LatestRunOf(Entries(row), n) == LatestRun(row.events, n)
    ensures n == row.nextCursor ==> LatestRunOf(Entries(row), n) == Some(row.record)
  {
    if n > 0 { FinishedReaderHoldsStoredRecord(row, n - 1); }
  }
}
