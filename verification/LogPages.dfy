/** Reading logs back: `read_log` (backend/app/v2/logging.py) and the newest-first pages
    `read_log_page` builds from it (backend/app/v2/api.py). */
module LogPages {
  import opened Collections
  import opened Domain
  import opened LogFiles

  // ---------------------------------------------------------------- read_log

  /** The lines the level filter and the search let through. */
  function Filter(lines: seq<Line>, keep: Line -> bool): (kept: seq<Line>)
    ensures |kept| <= |lines|
  {
    if lines == [] then []
    else Filter(lines[..|lines| - 1], keep) + (if keep(lines[|lines| - 1]) then [lines[|lines| - 1]] else [])
  }

  lemma {:induction false} FilterAppends(a: seq<Line>, b: seq<Line>, keep: Line -> bool)
    ensures Filter(a + b, keep) == Filter(a, keep) + Filter(b, keep)
  {
    if b == [] {
      assert a + b == a;
    } else {
      var rest, last := b[..|b| - 1], b[|b| - 1];
      FilterAppends(a, rest, keep);
      assert (a + b)[..|a + b| - 1] == a + rest;
    }
  }

  /** The part of `kept` at places `from <= i < to`. */
  function Window(kept: seq<Line>, from: int, to: int): seq<Line> {
    if kept == [] then []
    else
      var i := |kept| - 1;
      Window(kept[..i], from, to) + (if from <= i < to then [kept[i]] else [])
  }

  lemma {:induction false} WindowIsSlice(kept: seq<Line>, from: nat, to: nat)
    requires from <= to
    ensures var end := Min(to, |kept|);
      && |Window(kept, from, to)| == Max(end - from, 0)
      && forall j :: from <= j < end ==> Window(kept, from, to)[j - from] == kept[j]
  {
    if kept != [] {
      WindowIsSlice(kept[..|kept| - 1], from, to);
    }
  }

  datatype Read = Read(lines: seq<Line>, nextCursor: int, totalLines: nat)

  function ReadOf(kept: seq<Line>, cursor: int, limit: int): Read {
    var lines := Window(kept, cursor, cursor + limit);
    Read(lines, Min(cursor + |lines|, |kept|), |kept|)
  }

  /** What `lines` and `total_lines` are once `kept` has been let through. */
  predicate ReadSoFar(kept: seq<Line>, cursor: int, limit: int, lines: seq<Line>, total: nat) {
    total == |kept| && lines == Window(kept, cursor, cursor + limit)
  }

  /** `read_log`: the files oldest-first, line by line. */
  method ReadLog(files: Files, backupCount: nat, keep: Line -> bool, cursor: int, limit: int) returns (r: Read)
    ensures r == if AnyFile(files, backupCount) then ReadOf(Filter(Retained(files, backupCount), keep), cursor, limit)
                 else Read([], 0, 0)
  {
    if !AnyFile(files, backupCount) {
      return Read([], 0, 0);
    }
    var lines: seq<Line> := [];
    var total: nat := 0;
    ghost var seen: seq<Line> := [];
    for n := backupCount + 1 downto 0
      invariant seen + Kept(files, n) == Retained(files, backupCount)
      invariant ReadSoFar(Filter(seen, keep), cursor, limit, lines, total)
    {
      NextFile(files, n, seen);
      if n in files {
        lines, total := ReadFile(files[n], keep, cursor, limit, lines, total, Filter(seen, keep));
        FilterAppends(seen, files[n], keep);
        seen := seen + files[n];
      }
    }
    assert seen == Retained(files, backupCount);
    return Read(lines, Min(cursor + |lines|, total), total);
  }

  method ReadFile(
    file: seq<Line>, keep: Line -> bool, cursor: int, limit: int, before: seq<Line>, totalBefore: nat,
    ghost kept: seq<Line>)
    returns (lines: seq<Line>, total: nat)
    requires ReadSoFar(kept, cursor, limit, before, totalBefore)
    ensures ReadSoFar(kept + Filter(file, keep), cursor, limit, lines, total)
  {
    lines, total := before, totalBefore;
    ghost var sofar := kept;
    for i := 0 to |file|
      invariant sofar == kept + Filter(file[..i], keep)
      invariant ReadSoFar(sofar, cursor, limit, lines, total)
    {
      FilterNext(file, i, keep);
      if keep(file[i]) {
        WindowGrows(sofar, file[i], cursor, cursor + limit);
        if cursor <= total < cursor + limit {
          lines := lines + [file[i]];
        }
        total := total + 1;
        sofar := sofar + [file[i]];
      }
    }
    assert file[..|file|] == file;
  }

  lemma FilterNext(lines: seq<Line>, i: nat, keep: Line -> bool)
    requires i < |lines|
    ensures Filter(lines[..i + 1], keep) == Filter(lines[..i], keep) + (if keep(lines[i]) then [lines[i]] else [])
  {
    assert lines[..i + 1][..i] == lines[..i];
  }

  lemma NextFile(files: Files, n: nat, seen: seq<Line>)
    ensures seen + Kept(files, n + 1) == (if n in files then seen + files[n] else seen) + Kept(files, n)
  {
    assert Retained(files, n) == LinesOf(files, n) + Kept(files, n);
  }

  predicate AnyFile(files: Files, backupCount: nat) {
    exists i: nat :: 0 <= i <= backupCount && i in files
  }

  lemma WindowGrows(kept: seq<Line>, line: Line, from: int, to: int)
    ensures Window(kept + [line], from, to)
            == Window(kept, from, to) + (if from <= |kept| < to then [line] else [])
  {
    assert (kept + [line])[..|kept|] == kept;
  }

  // ---------------------------------------------------------------- read_log_page

  /** `"consumed"` or `"consumed:snapshot"`. */
  datatype Cursor = Cursor(consumed: int, snapshot: Option<int>)

  datatype Item = Entry(line: Line) | Malformed

  datatype Page = Page(items: seq<Item>, next: Option<Cursor>, totalItems: int)

  function Render(line: Line, parses: Line -> bool): Item {
    if parses(line) then Entry(line) else Malformed
  }

  /** Lines as items, newest first. */
  function NewestFirst(lines: seq<Line>, parses: Line -> bool): (items: seq<Item>)
    ensures |items| == |lines|
    ensures forall i :: 0 <= i < |lines| ==> items[i] == Render(lines[|lines| - 1 - i], parses)
  {
    seq(|lines|, i requires 0 <= i < |lines| => Render(lines[|lines| - 1 - i], parses))
  }

  function PageOf(summary: seq<Line>, kept: seq<Line>, cursor: Cursor, limit: int, parses: Line -> bool): Page {
    var snapshot := if cursor.snapshot.Some? then cursor.snapshot.value else |summary|;
    var total := Min(|summary|, snapshot);
    PageAt(kept, cursor.consumed, snapshot, total, Min(limit, Max(total - cursor.consumed, 0)), parses)
  }

  /** The page of `count` items that come before the `consumed` newest of `total` lines. */
  function PageAt(
    kept: seq<Line>, consumed: int, snapshot: int, total: int, count: int, parses: Line -> bool): Page
  {
    var start := Max(total - consumed - count, 0);
    var items := NewestFirst(Window(kept, start, start + count), parses);
    var now := consumed + |items|;
    Page(items, if now < total then Some(Cursor(now, Some(snapshot))) else None, total)
  }

  /** The loop that parses the lines read, and `items.reverse()`. */
  method ParseNewestFirst(lines: seq<Line>, parses: Line -> bool) returns (items: seq<Item>)
    ensures items == NewestFirst(lines, parses)
  {
    items := [];
    for i := 0 to |lines|
      invariant |items| == i
      invariant forall j :: 0 <= j < i ==> items[j] == Render(lines[j], parses)
    {
      items := items + [if parses(lines[i]) then Entry(lines[i]) else Malformed];
    }
    items := seq(|items|, i requires 0 <= i < |items| => items[|items| - 1 - i]);
  }

  /** `read_log_page`. Its two reads are separate, so other writers may come in between: `summary`
      and `kept` are the kept lines at the first and at the second. */
  method ReadLogPage(summary: seq<Line>, kept: seq<Line>, cursor: Cursor, limit: int, parses: Line -> bool)
    returns (page: Page)
    ensures page == PageOf(summary, kept, cursor, limit, parses)
  {
    var consumed := cursor.consumed;
    var currentTotal := ReadOf(summary, 0, 1).totalLines;
    var snapshotTotal := if cursor.snapshot.Some? then cursor.snapshot.value else currentTotal;
    var total := Min(currentTotal, snapshotTotal);
    var count := Min(limit, Max(total - consumed, 0));
    var start := Max(total - consumed - count, 0);
    var raw := ReadOf(kept, start, count);
    var items := ParseNewestFirst(raw.lines, parses);
    consumed := consumed + |items|;
    page := Page(items, if consumed < total then Some(Cursor(consumed, Some(snapshotTotal))) else None, total);
    assert page == PageAt(kept, cursor.consumed, snapshotTotal, total, count, parses);
  }

  // ---------------------------------------------------------------- walking all pages

  /** One request of a walk: what its two reads saw, and the page size asked for. */
  datatype Request = Request(summary: seq<Line>, kept: seq<Line>, limit: int)

  /** All items of the pages from `cursor` on; a walk stops at the page without a next cursor. */
  function Items(requests: seq<Request>, cursor: Option<Cursor>, parses: Line -> bool): seq<Item> {
    if requests == [] || cursor.None? then []
    else
      var page := PageOf(requests[0].summary, requests[0].kept, cursor.value, requests[0].limit, parses);
      page.items + Items(requests[1..], page.next, parses)
  }

  function Final(requests: seq<Request>, cursor: Option<Cursor>, parses: Line -> bool): Option<Cursor> {
    if requests == [] || cursor.None? then cursor
    else
      var page := PageOf(requests[0].summary, requests[0].kept, cursor.value, requests[0].limit, parses);
      Final(requests[1..], page.next, parses)
  }

  /** Since the snapshot lines were only added. */
  ghost predicate OnlyAppended(snapshot: seq<Line>, requests: seq<Request>) {
    forall i :: 0 <= i < |requests| ==>
      requests[i].limit >= 1 && snapshot <= requests[i].summary && snapshot <= requests[i].kept
  }

  /** Walking from cursor 0 to the end returns exactly the reversed first-page snapshot, each line
      once, even when lines are added between and within pages; and the walk does end, at the latest
      after one page more than the snapshot has lines. */
  lemma WalkReturnsTheSnapshot(requests: seq<Request>, parses: Line -> bool)
    requires requests != [] && OnlyAppended(requests[0].summary, requests)
    ensures var items := Items(requests, Some(Cursor(0, None)), parses);
      var all := NewestFirst(requests[0].summary, parses);
      && items <= all
      && (Final(requests, Some(Cursor(0, None)), parses).None? ==> items == all)
    ensures |requests| > |requests[0].summary| ==> Final(requests, Some(Cursor(0, None)), parses).None?
  {
    var snapshot := requests[0].summary;
    FirstPageTakesTheSnapshot(requests, parses);
    WalkOn(snapshot, requests, 0, parses);
    assert NewestFirst(snapshot, parses)[0..] == NewestFirst(snapshot, parses);
  }

  lemma FirstPageTakesTheSnapshot(requests: seq<Request>, parses: Line -> bool)
    requires requests != []
    ensures var open, fixed := Some(Cursor(0, None)), Some(Cursor(0, Some(|requests[0].summary|)));
      && Items(requests, open, parses) == Items(requests, fixed, parses)
      && Final(requests, open, parses) == Final(requests, fixed, parses)
  {
    FirstPage(requests[0], parses);
  }

  lemma FirstPage(request: Request, parses: Line -> bool)
    ensures PageOf(request.summary, request.kept, Cursor(0, None), request.limit, parses)
            == PageOf(request.summary, request.kept, Cursor(0, Some(|request.summary|)), request.limit, parses)
  {
  }

  lemma {:induction false} WalkOn(snapshot: seq<Line>, requests: seq<Request>, consumed: nat, parses: Line -> bool)
    requires OnlyAppended(snapshot, requests) && consumed <= |snapshot|
    ensures var cursor := Some(Cursor(consumed, Some(|snapshot|)));
      var items := Items(requests, cursor, parses);
      var rest := NewestFirst(snapshot, parses)[consumed..];
      && items <= rest
      && (Final(requests, cursor, parses).None? ==> items == rest)
      && (|requests| > |snapshot| - consumed ==> Final(requests, cursor, parses).None?)
  {
    if requests != [] {
      var first, all := requests[0], NewestFirst(snapshot, parses);
      var count := Min(first.limit, |snapshot| - consumed);
      var next := if consumed + count < |snapshot| then Some(Cursor(consumed + count, Some(|snapshot|))) else None;
      PageIsNext(snapshot, first, consumed, parses);
      PageThenRest(requests, Cursor(consumed, Some(|snapshot|)), parses, all[consumed..consumed + count], next);
      if next.Some? {
        WalkOn(snapshot, requests[1..], consumed + count, parses);
        Splices(all, consumed, count, Items(requests[1..], next, parses));
      }
    }
  }

  lemma PageThenRest(
    requests: seq<Request>, cursor: Cursor, parses: Line -> bool, items: seq<Item>, next: Option<Cursor>)
    requires requests != []
    requires var page := PageOf(requests[0].summary, requests[0].kept, cursor, requests[0].limit, parses);
      page.items == items && page.next == next
    ensures Items(requests, Some(cursor), parses) == items + Items(requests[1..], next, parses)
    ensures Final(requests, Some(cursor), parses) == Final(requests[1..], next, parses)
  {
  }

  lemma Splices(all: seq<Item>, from: nat, count: nat, tail: seq<Item>)
    requires from + count <= |all| && tail <= all[from + count..]
    ensures all[from..from + count] + tail <= all[from..]
    ensures tail == all[from + count..] ==> all[from..from + count] + tail == all[from..]
  {
    assert all[from..] == all[from..from + count] + all[from + count..];
  }

  /** One page takes the newest snapshot lines not yet consumed. */
  lemma PageIsNext(snapshot: seq<Line>, request: Request, consumed: nat, parses: Line -> bool)
    requires request.limit >= 1 && snapshot <= request.summary && snapshot <= request.kept
    requires consumed <= |snapshot|
    ensures var cursor := Cursor(consumed, Some(|snapshot|));
      var page := PageOf(request.summary, request.kept, cursor, request.limit, parses);
      var count := Min(request.limit, |snapshot| - consumed);
      && page.items == NewestFirst(snapshot, parses)[consumed..consumed + count]
      && page.next == if consumed + count < |snapshot| then Some(Cursor(consumed + count, Some(|snapshot|))) else None
  {
    var count := Min(request.limit, |snapshot| - consumed);
    var start := |snapshot| - consumed - count;
    FixedPage(request, consumed, |snapshot|, parses);
    PrefixWindow(snapshot, request.kept, start, count);
    NewestOfPart(snapshot, start, count, parses);
  }

  lemma FixedPage(request: Request, consumed: nat, total: nat, parses: Line -> bool)
    requires consumed <= total <= |request.summary|
    ensures PageOf(request.summary, request.kept, Cursor(consumed, Some(total)), request.limit, parses)
            == PageAt(request.kept, consumed, total, total, Min(request.limit, total - consumed), parses)
  {
  }

  lemma PrefixWindow(snapshot: seq<Line>, kept: seq<Line>, start: nat, count: nat)
    requires snapshot <= kept && start + count <= |snapshot|
    ensures Window(kept, start, start + count) == snapshot[start..start + count]
  {
    WindowIsSlice(kept, start, start + count);
  }

  lemma NewestOfPart(lines: seq<Line>, start: nat, count: nat, parses: Line -> bool)
    requires start + count <= |lines|
    ensures var end := |lines| - start;
      NewestFirst(lines[start..start + count], parses) == NewestFirst(lines, parses)[end - count..end]
  {
  }

  /** Writes that push no file out only add to what a reader sees. */
  lemma WritesOnlyAppend(before: Files, after: Files, n: nat, line: Line, keep: Line -> bool)
    requires Retained(after, n) == Retained(before, n) + [line]
    ensures Filter(Retained(before, n), keep) <= Filter(Retained(after, n), keep)
  {
    FilterAppends(Retained(before, n), [line], keep);
  }

  // ---------------------------------------------------------------- walking while others write

  /** A page request: how many lines had been written at its first and at its second read. */
  datatype Visit = Visit(first: nat, second: nat, limit: int)

  /** What a reader sees after the first `m` of the writes. */
  function Seen(files: Files, n: nat, maxBytes: int, lines: seq<Line>, m: nat, keep: Line -> bool): seq<Line>
    requires m <= |lines|
  {
    Filter(Retained(WrittenAll(files, n, maxBytes, lines[..m]), n), keep)
  }

  predicate Within(visits: seq<Visit>, start: nat, end: nat) {
    forall i :: 0 <= i < |visits| ==>
      start <= visits[i].first <= end && start <= visits[i].second <= end && visits[i].limit >= 1
  }

  function RequestsOf(
    files: Files, n: nat, maxBytes: int, lines: seq<Line>, visits: seq<Visit>, keep: Line -> bool): seq<Request>
    requires Within(visits, 0, |lines|)
  {
    seq(|visits|, i requires 0 <= i < |visits| =>
      Request(Seen(files, n, maxBytes, lines, visits[i].first, keep),
              Seen(files, n, maxBytes, lines, visits[i].second, keep), visits[i].limit))
  }

  /** From the `start`-th write on nothing is pushed out. */
  predicate NothingPushedOut(files: Files, n: nat, maxBytes: int, lines: seq<Line>, start: nat) {
    forall m :: start <= m < |lines| ==> !PushesOut(WrittenAll(files, n, maxBytes, lines[..m]), n, maxBytes, lines[m])
  }

  /** A walk whose reads are spread over any writes returns the reversed first-page snapshot, each line
      once, if since its first read no write pushed a file out. */
  lemma WalkDuringWrites(
    files: Files, n: nat, maxBytes: int, lines: seq<Line>, visits: seq<Visit>, keep: Line -> bool,
    parses: Line -> bool)
    requires 0 in files && visits != [] && Within(visits, visits[0].first, |lines|)
    requires NothingPushedOut(files, n, maxBytes, lines, visits[0].first)
    ensures Within(visits, 0, |lines|)
    ensures var requests := RequestsOf(files, n, maxBytes, lines, visits, keep);
      var items := Items(requests, Some(Cursor(0, None)), parses);
      var all := NewestFirst(Seen(files, n, maxBytes, lines, visits[0].first, keep), parses);
      && items <= all
      && (Final(requests, Some(Cursor(0, None)), parses).None? ==> items == all)
      && (|requests| > |all| ==> Final(requests, Some(Cursor(0, None)), parses).None?)
  {
    var requests := RequestsOf(files, n, maxBytes, lines, visits, keep);
    forall i | 0 <= i < |requests|
      ensures requests[0].summary <= requests[i].summary && requests[0].summary <= requests[i].kept
    {
      SeenGrows(files, n, maxBytes, lines, visits[0].first, visits[i].first, keep);
      SeenGrows(files, n, maxBytes, lines, visits[0].first, visits[i].second, keep);
    }
    WalkReturnsTheSnapshot(requests, parses);
  }

  lemma {:induction false} SeenGrows(
    files: Files, n: nat, maxBytes: int, lines: seq<Line>, start: nat, m: nat, keep: Line -> bool)
    requires 0 in files && start <= m <= |lines| && NothingPushedOut(files, n, maxBytes, lines, start)
    ensures Seen(files, n, maxBytes, lines, start, keep) <= Seen(files, n, maxBytes, lines, m, keep)
    decreases m
  {
    if start < m {
      SeenGrows(files, n, maxBytes, lines, start, m - 1, keep);
      CurrentStays(files, n, maxBytes, lines[..m - 1]);
      assert lines[..m][..m - 1] == lines[..m - 1];
      var before := WrittenAll(files, n, maxBytes, lines[..m - 1]);
      WriteLosesIffItPushesOut(before, n, maxBytes, lines[m - 1]);
      WritesOnlyAppend(before, Written(before, n, maxBytes, lines[m - 1]), n, lines[m - 1], keep);
    }
  }

  lemma {:induction false} CurrentStays(files: Files, n: nat, maxBytes: int, lines: seq<Line>)
    requires 0 in files
    ensures 0 in WrittenAll(files, n, maxBytes, lines)
  {
    if lines != [] {
      CurrentStays(files, n, maxBytes, lines[..|lines| - 1]);
    }
  }

  // ---------------------------------------------------------------- what a reader is given

  /** The places `at`, in order, are those of the lines that satisfy `keep`, and `kept` stands there. */
  predicate KeptAt(lines: seq<Line>, keep: Line -> bool, kept: seq<Line>, at: seq<nat>) {
    && |at| == |kept|
    && (forall i :: 0 <= i < |at| ==> at[i] < |lines| && keep(lines[at[i]]) && kept[i] == lines[at[i]])
    && (forall i, j :: 0 <= i < j < |at| ==> at[i] < at[j])
    && (forall j :: 0 <= j < |lines| && keep(lines[j]) ==> j in at)
  }

  /** The filter selects every line that satisfies it and no other, in order. */
  lemma {:induction false} KeptLines(lines: seq<Line>, keep: Line -> bool) returns (at: seq<nat>)
    ensures KeptAt(lines, keep, Filter(lines, keep), at)
  {
    at := [];
    if lines != [] {
      var rest, last := lines[..|lines| - 1], lines[|lines| - 1];
      at := KeptLines(rest, keep);
      OneMoreKept(rest, last, keep, Filter(rest, keep), at);
      assert rest + [last] == lines;
      if keep(last) {
        at := at + [|rest|];
      }
    }
  }

  lemma OneMoreKept(lines: seq<Line>, line: Line, keep: Line -> bool, kept: seq<Line>, at: seq<nat>)
    requires KeptAt(lines, keep, kept, at)
    ensures if keep(line) then KeptAt(lines + [line], keep, kept + [line], at + [|lines|])
            else KeptAt(lines + [line], keep, kept, at)
  {
    var after := if keep(line) then at + [|lines|] else at;
    forall j | 0 <= j < |lines + [line]| && keep((lines + [line])[j]) ensures j in after {
      if j == |lines| {
        assert after[|at|] == j;
      } else {
        assert j in at && forall i :: 0 <= i < |at| ==> after[i] == at[i];
      }
    }
  }

  /** A read from `cursor` on returns the next `limit` kept lines, where to go on, and how many there are. */
  lemma ReadMeans(kept: seq<Line>, cursor: nat, limit: nat)
    ensures ReadOf(kept, cursor, limit).totalLines == |kept|
    ensures cursor > |kept| ==> ReadOf(kept, cursor, limit) == Read([], |kept|, |kept|)
    ensures cursor + limit <= |kept| ==>
              ReadOf(kept, cursor, limit) == Read(kept[cursor..cursor + limit], cursor + limit, |kept|)
    ensures cursor <= |kept| < cursor + limit ==>
              ReadOf(kept, cursor, limit) == Read(kept[cursor..], |kept|, |kept|)
  {
    WindowIsSlice(kept, cursor, cursor + limit);
  }

  /** Any page, also when lines have been lost meanwhile: of the lines that were there at the first page
      (or are left of them), those before the `consumed` newest, the newest first. */
  lemma PageMeans(summary: seq<Line>, kept: seq<Line>, cursor: Cursor, limit: nat, parses: Line -> bool)
    requires cursor.consumed >= 0 && (cursor.snapshot.Some? ==> cursor.snapshot.value >= 0)
    ensures var page := PageOf(summary, kept, cursor, limit, parses);
      var snapshot := if cursor.snapshot.Some? then cursor.snapshot.value else |summary|;
      var end := Max(page.totalItems - cursor.consumed, 0);
      var start := Max(end - limit, 0);
      && page.totalItems == (if snapshot < |summary| then snapshot else |summary|)
      && |page.items| == Max(Min(end, |kept|) - start, 0)
      && (forall i :: 0 <= i < |page.items| ==>
            var line := kept[start + |page.items| - 1 - i];
            page.items[i] == if parses(line) then Entry(line) else Malformed)
      && page.next == (if cursor.consumed + |page.items| < page.totalItems
                       then Some(Cursor(cursor.consumed + |page.items|, Some(snapshot))) else None)
  {
    var snapshot := if cursor.snapshot.Some? then cursor.snapshot.value else |summary|;
    var end := Max(Min(|summary|, snapshot) - cursor.consumed, 0);
    var start := Max(end - limit, 0);
    WindowIsSlice(kept, start, end);
  }
}
