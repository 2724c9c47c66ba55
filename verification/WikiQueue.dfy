/** `select_and_enqueue` (backend/app/v2/wiki.py): one greedy pass over all questions' matches chooses
    the pages to queue, and the queue only ever gains by it. */
module WikiQueue {
  import opened Collections
  import opened Ordering

  datatype Page = Page(id: string, url: string)

  datatype Question = Question(id: string, sourceBudget: int, priority: int)

  /** One page a question matches: the tuple that is sorted. */
  datatype Match = Match(priority: int, score: nat, url: string, question: string, page: string)

  datatype Status = Queued | Terminal(name: string)

  /** A row of WikiPageQueue; `questions` is its list of question ids, kept sorted and without repeats. */
  datatype Row = Row(questions: set<string>, priority: int, score: nat, status: Status)

  type Rows = map<string, Row>

  // ---------------------------------------------------------------- matches

  predicate Closed(rows: Rows, page: string) {
    page in rows && rows[page].status.Terminal?
  }

  predicate Matches(q: Question, p: Page, rows: Rows, score: (Page, Question) -> nat) {
    !Closed(rows, p.id) && score(p, q) != 0
  }

  function MatchOf(q: Question, p: Page, score: (Page, Question) -> nat): Match {
    Match(q.priority, score(p, q), p.url, q.id, p.id)
  }

  function MatchesOf(q: Question, pages: seq<Page>, rows: Rows, score: (Page, Question) -> nat): seq<Match> {
    if pages == [] then []
    else
      var p := pages[|pages| - 1];
      MatchesOf(q, pages[..|pages| - 1], rows, score)
      + (if Matches(q, p, rows, score) then [MatchOf(q, p, score)] else [])
  }

  function AllMatches(
    questions: seq<Question>, pages: seq<Page>, rows: Rows, score: (Page, Question) -> nat): seq<Match>
  {
    if questions == [] then []
    else
      AllMatches(questions[..|questions| - 1], pages, rows, score)
      + MatchesOf(questions[|questions| - 1], pages, rows, score)
  }

  method CollectMatches(questions: seq<Question>, pages: seq<Page>, rows: Rows, score: (Page, Question) -> nat)
    returns (matches: seq<Match>)
    ensures matches == AllMatches(questions, pages, rows, score)
  {
    matches := [];
    for i := 0 to |questions|
      invariant matches == AllMatches(questions[..i], pages, rows, score)
    {
      assert questions[..i + 1][..i] == questions[..i];
      ghost var before := matches;
      for j := 0 to |pages|
        invariant matches == before + MatchesOf(questions[i], pages[..j], rows, score)
      {
        assert pages[..j + 1][..j] == pages[..j];
        if Matches(questions[i], pages[j], rows, score) {
          matches := matches + [MatchOf(questions[i], pages[j], score)];
        }
      }
      assert pages[..|pages|] == pages;
    }
    assert questions[..|questions|] == questions;
  }

  // ---------------------------------------------------------------- the order

  /** Python's order of the tuples `(priority, -score, url, question id)`. */
  predicate MatchLe(a: Match, b: Match) {
    || a.priority < b.priority
    || (a.priority == b.priority && a.score > b.score)
    || (a.priority == b.priority && a.score == b.score && Before(a.url, b.url))
    || (a.priority == b.priority && a.score == b.score && a.url == b.url && TextLe(a.question, b.question))
  }

  function InOrder(): (Match, Match) -> bool {
    (a, b) => MatchLe(a, b)
  }

  lemma InOrderIsPreorder()
    ensures Preorder(InOrder())
  {
    forall a, b ensures MatchLe(a, b) || MatchLe(b, a) {
      TextLeTotal(a.url, b.url);
      TextLeTotal(a.question, b.question);
    }
    forall a, b, c | MatchLe(a, b) && MatchLe(b, c) ensures MatchLe(a, c) {
      MatchLeTransitive(a, b, c);
    }
  }

  lemma BeforeTransitive(a: string, b: string, c: string)
    requires Before(a, b) && Before(b, c)
    ensures Before(a, c)
  {
    TextLeTotal(a, b);
    if TextLe(c, a) {
      TextLeTransitive(c, a, b);
    }
  }

  lemma MatchLeTransitive(a: Match, b: Match, c: Match)
    requires MatchLe(a, b) && MatchLe(b, c)
    ensures MatchLe(a, c)
  {
    if Before(a.url, b.url) && Before(b.url, c.url) {
      BeforeTransitive(a.url, b.url, c.url);
    }
    if TextLe(a.question, b.question) && TextLe(b.question, c.question) {
      TextLeTransitive(a.question, b.question, c.question);
    }
  }

  // ---------------------------------------------------------------- the greedy pass

  function Budget(questions: seq<Question>, id: string): int {
    if questions == [] then 0
    else if questions[|questions| - 1].id == id then questions[|questions| - 1].sourceBudget
    else Budget(questions[..|questions| - 1], id)
  }

  function CountFor(matches: seq<Match>, question: string): nat {
    if matches == [] then 0
    else
      CountFor(matches[..|matches| - 1], question) + (if matches[|matches| - 1].question == question then 1 else 0)
  }

  function Greedy(sorted: seq<Match>, questions: seq<Question>): seq<Match> {
    if sorted == [] then []
    else
      var before, m := Greedy(sorted[..|sorted| - 1], questions), sorted[|sorted| - 1];
      if CountFor(before, m.question) < Budget(questions, m.question) then before + [m] else before
  }

  method Capacities(questions: seq<Question>) returns (remaining: map<string, int>)
    ensures forall id :: Left(remaining, id) == Budget(questions, id)
  {
    remaining := map[];
    for i := 0 to |questions|
      invariant forall id :: Left(remaining, id) == Budget(questions[..i], id)
    {
      assert questions[..i + 1][..i] == questions[..i];
      remaining := remaining[questions[i].id := questions[i].sourceBudget];
    }
    assert questions[..|questions|] == questions;
  }

  /** The pass over the sorted matches, counting `remaining` down per question. */
  method PickGreedily(sorted: seq<Match>, questions: seq<Question>) returns (picks: seq<Match>)
    ensures picks == Greedy(sorted, questions)
  {
    picks := [];
    var remaining := Capacities(questions);
    for k := 0 to |sorted|
      invariant picks == Greedy(sorted[..k], questions)
      invariant forall id :: Left(remaining, id) == Budget(questions, id) - CountFor(picks, id)
    {
      assert sorted[..k + 1][..k] == sorted[..k];
      var m := sorted[k];
      if Left(remaining, m.question) <= 0 {
        continue;
      }
      assert (picks + [m])[..|picks|] == picks;
      remaining := remaining[m.question := Left(remaining, m.question) - 1];
      picks := picks + [m];
    }
    assert sorted[..|sorted|] == sorted;
  }

  function Left(remaining: map<string, int>, id: string): int {
    if id in remaining then remaining[id] else 0
  }

  // ---------------------------------------------------------------- each question gets its best pages

  /** Which of two pages a question prefers. */
  predicate Beats(x: Match, m: Match) {
    x.question == m.question && (x.score > m.score || (x.score == m.score && Before(x.url, m.url)))
  }

  ghost function Better(matches: seq<Match>, m: Match): set<Match> {
    set x | x in matches && Beats(x, m)
  }

  /** A question has one priority, and no two pages have the same address. */
  ghost predicate Consistent(matches: seq<Match>) {
    && Distinct(matches)
    && (forall x, y :: x in matches && y in matches && x.question == y.question ==>
          x.priority == y.priority && (x.url == y.url ==> x == y))
  }

  /** The pass takes exactly each question's best matches up to its budget: a page is chosen for a
      question when fewer pages than the budget beat it, by score and then by address. */
  lemma GreedyTakesTheBest(matches: seq<Match>, questions: seq<Question>, m: Match)
    requires Consistent(matches) && m in matches
    ensures m in Greedy(Sort(matches, InOrder()), questions) <==> |Better(matches, m)| < Budget(questions, m.question)
  {
    var sorted := Sort(matches, InOrder());
    InOrderIsPreorder();
    SortSorts(matches, InOrder());
    SortKeeps(matches, InOrder());
    SameElements(matches, sorted);
    var k :| 0 <= k < |sorted| && sorted[k] == m;
    EarlierAreBetter(matches, sorted, k);
    TakenWhileBudgetLasts(sorted, questions, k);
  }

  lemma SameElements(a: seq<Match>, b: seq<Match>)
    requires multiset(a) == multiset(b) && Distinct(a)
    ensures forall x :: x in a <==> x in b
    ensures Distinct(b)
  {
    forall x ensures x in a <==> x in b {
      assert x in a <==> x in multiset(a);
      assert x in b <==> x in multiset(b);
    }
    forall i, j | 0 <= i < j < |b| ensures b[i] != b[j] {
      if b[i] == b[j] {
        TwiceInMultiset(b, i, j);
        OnceInMultiset(a, b[i]);
      }
    }
  }

  lemma TwiceInMultiset(s: seq<Match>, i: nat, j: nat)
    requires i < j < |s| && s[i] == s[j]
    ensures multiset(s)[s[i]] >= 2
  {
    assert s == s[..j] + [s[j]] + s[j + 1..];
    assert s[..j][i] == s[i];
    assert s[i] in multiset(s[..j]);
  }

  lemma {:induction false} OnceInMultiset(s: seq<Match>, x: Match)
    requires Distinct(s)
    ensures multiset(s)[x] <= 1
  {
    if s != [] {
      var rest := s[..|s| - 1];
      assert s == rest + [s[|s| - 1]];
      OnceInMultiset(rest, x);
      if x == s[|s| - 1] {
        assert x !in rest;
        assert x !in multiset(rest);
      }
    }
  }

  /** Among one question's matches the earlier in the order are exactly the better ones. */
  lemma EarlierAreBetter(matches: seq<Match>, sorted: seq<Match>, k: nat)
    requires Consistent(matches) && Sorted(sorted, InOrder()) && k < |sorted|
    requires forall x :: x in matches <==> x in sorted
    requires Distinct(sorted)
    ensures |Better(matches, sorted[k])| == CountFor(sorted[..k], sorted[k].question)
  {
    var m := sorted[k];
    forall j | 0 <= j < |sorted| && sorted[j].question == m.question
      ensures Beats(sorted[j], m) <==> j < k
    {
      if j < k {
        assert InOrder()(sorted[j], m);
        TextLeTotal(sorted[j].url, m.url);
      } else if k < j {
        assert InOrder()(m, sorted[j]);
        TextLeTotal(m.url, sorted[j].url);
      } else {
        TextLeTotal(m.url, m.url);
      }
    }
    assert Better(matches, m) == SetFor(sorted[..k], m.question) by {
      assert forall x :: x in matches ==> exists j :: 0 <= j < |sorted| && sorted[j] == x;
    }
    CountIsSize(sorted[..k], m.question);
  }

  ghost function SetFor(s: seq<Match>, question: string): set<Match> {
    set x | x in s && x.question == question
  }

  lemma {:induction false} CountIsSize(s: seq<Match>, question: string)
    requires Distinct(s)
    ensures CountFor(s, question) == |SetFor(s, question)|
  {
    if s == [] {
      assert SetFor(s, question) == {};
    } else {
      var rest, last := s[..|s| - 1], s[|s| - 1];
      CountIsSize(rest, question);
      assert s == rest + [last] && last !in rest;
      assert SetFor(s, question) == SetFor(rest, question) + (if last.question == question then {last} else {});
    }
  }

  /** What the pass has taken for a question is what came, up to the budget. */
  lemma {:induction false} TakenSoFar(sorted: seq<Match>, questions: seq<Question>, question: string)
    ensures CountFor(Greedy(sorted, questions), question)
            == Min(CountFor(sorted, question), Max(Budget(questions, question), 0))
    ensures forall x :: x in Greedy(sorted, questions) ==> x in sorted
  {
    if sorted != [] {
      var rest, m := sorted[..|sorted| - 1], sorted[|sorted| - 1];
      TakenSoFar(rest, questions, question);
      var before := Greedy(rest, questions);
      assert (before + [m])[..|before|] == before;
      TakenSoFar(rest, questions, m.question);
    }
  }

  lemma {:induction false} TakenWhileBudgetLasts(sorted: seq<Match>, questions: seq<Question>, k: nat)
    requires k < |sorted| && Distinct(sorted)
    ensures sorted[k] in Greedy(sorted, questions)
            <==> CountFor(sorted[..k], sorted[k].question) < Budget(questions, sorted[k].question)
    decreases |sorted|
  {
    var rest, m := sorted[..|sorted| - 1], sorted[|sorted| - 1];
    if k == |rest| {
      TakenSoFar(rest, questions, m.question);
      assert m !in rest;
    } else {
      TakenWhileBudgetLasts(rest, questions, k);
      assert rest[..k] == sorted[..k];
    }
  }

  // ---------------------------------------------------------------- in terms of questions and pages

  ghost predicate DistinctInput(questions: seq<Question>, pages: seq<Page>) {
    && (forall i, j :: 0 <= i < j < |questions| ==> questions[i].id != questions[j].id)
    && (forall i, j :: 0 <= i < j < |pages| ==> pages[i].url != pages[j].url)
  }

  /** The pages question `q` prefers to `p`. */
  ghost function Preferred(
    q: Question, p: Page, pages: seq<Page>, rows: Rows, score: (Page, Question) -> nat): set<Page>
  {
    set x | x in pages && Matches(q, x, rows, score)
            && (score(x, q) > score(p, q) || (score(x, q) == score(p, q) && Before(x.url, p.url)))
  }

  function Picks(questions: seq<Question>, pages: seq<Page>, rows: Rows, score: (Page, Question) -> nat): seq<Match> {
    Greedy(Sort(AllMatches(questions, pages, rows, score), InOrder()), questions)
  }

  /** Each question gets exactly its best matching pages, by score and then by address, as many as its
      budget allows, although one pass over all questions chooses them. */
  lemma EachQuestionGetsItsBest(
    questions: seq<Question>, pages: seq<Page>, rows: Rows, score: (Page, Question) -> nat, q: Question, p: Page)
    requires DistinctInput(questions, pages) && q in questions && p in pages && Matches(q, p, rows, score)
    ensures MatchOf(q, p, score) in Picks(questions, pages, rows, score)
            <==> |Preferred(q, p, pages, rows, score)| < q.sourceBudget
  {
    var matches, m := AllMatches(questions, pages, rows, score), MatchOf(q, p, score);
    MatchesAreConsistent(questions, pages, rows, score);
    InAllMatches(questions, pages, rows, score, m);
    GreedyTakesTheBest(matches, questions, m);
    BudgetOf(questions, q);
    forall x ensures x in Better(matches, m) <==> x in Images(Preferred(q, p, pages, rows, score), q, score) {
      InAllMatches(questions, pages, rows, score, x);
    }
    assert Better(matches, m) == Images(Preferred(q, p, pages, rows, score), q, score);
    ImagesAreAsMany(Preferred(q, p, pages, rows, score), pages, q, score);
  }

  lemma {:induction false} BudgetOf(questions: seq<Question>, q: Question)
    requires q in questions && forall i, j :: 0 <= i < j < |questions| ==> questions[i].id != questions[j].id
    ensures Budget(questions, q.id) == q.sourceBudget
  {
    if questions[|questions| - 1] != q {
      BudgetOf(questions[..|questions| - 1], q);
    }
  }

  ghost predicate ComesFrom(
    m: Match, questions: seq<Question>, pages: seq<Page>, rows: Rows, score: (Page, Question) -> nat)
  {
    exists q, p :: q in questions && p in pages && Matches(q, p, rows, score) && m == MatchOf(q, p, score)
  }

  lemma {:induction false} InMatchesOf(
    q: Question, pages: seq<Page>, rows: Rows, score: (Page, Question) -> nat, m: Match)
    ensures m in MatchesOf(q, pages, rows, score)
            <==> exists p :: p in pages && Matches(q, p, rows, score) && m == MatchOf(q, p, score)
  {
    if pages != [] {
      var rest, last := pages[..|pages| - 1], pages[|pages| - 1];
      assert pages == rest + [last];
      InMatchesOf(q, rest, rows, score, m);
    }
  }

  lemma {:induction false} InAllMatches(
    questions: seq<Question>, pages: seq<Page>, rows: Rows, score: (Page, Question) -> nat, m: Match)
    ensures m in AllMatches(questions, pages, rows, score) <==> ComesFrom(m, questions, pages, rows, score)
  {
    if questions != [] {
      var rest, last := questions[..|questions| - 1], questions[|questions| - 1];
      assert questions == rest + [last];
      InAllMatches(rest, pages, rows, score, m);
      InMatchesOf(last, pages, rows, score, m);
    }
  }

  lemma {:induction false} MatchesAreConsistent(
    questions: seq<Question>, pages: seq<Page>, rows: Rows, score: (Page, Question) -> nat)
    requires DistinctInput(questions, pages)
    ensures Consistent(AllMatches(questions, pages, rows, score))
  {
    var matches := AllMatches(questions, pages, rows, score);
    NoMatchTwice(questions, pages, rows, score);
    forall x, y | x in matches && y in matches && x.question == y.question
      ensures x.priority == y.priority && (x.url == y.url ==> x == y)
    {
      InAllMatches(questions, pages, rows, score, x);
      InAllMatches(questions, pages, rows, score, y);
    }
  }

  lemma {:induction false} NoMatchTwice(
    questions: seq<Question>, pages: seq<Page>, rows: Rows, score: (Page, Question) -> nat)
    requires DistinctInput(questions, pages)
    ensures forall i, j :: 0 <= i < j < |AllMatches(questions, pages, rows, score)| ==>
              AllMatches(questions, pages, rows, score)[i] != AllMatches(questions, pages, rows, score)[j]
  {
    if questions != [] {
      var rest, last := questions[..|questions| - 1], questions[|questions| - 1];
      NoMatchTwice(rest, pages, rows, score);
      NoPageTwice(last, pages, rows, score);
      var a, b := AllMatches(rest, pages, rows, score), MatchesOf(last, pages, rows, score);
      assert forall q :: q in rest ==> q.id != last.id;
      forall x | x in a ensures x.question != last.id {
        InAllMatches(rest, pages, rows, score, x);
      }
      forall x | x in b ensures x.question == last.id {
        InMatchesOf(last, pages, rows, score, x);
      }
      DistinctConcat(a, b);
    }
  }

  lemma DistinctConcat(a: seq<Match>, b: seq<Match>)
    requires Distinct(a)
    requires Distinct(b)
    requires forall x :: x in a ==> x !in b
    ensures forall i, j :: 0 <= i < j < |a + b| ==> (a + b)[i] != (a + b)[j]
  {
    forall i, j | 0 <= i < j < |a + b| ensures (a + b)[i] != (a + b)[j] {
      if i < |a| <= j {
        assert a[i] in a && b[j - |a|] in b;
      }
    }
  }

  lemma {:induction false} NoPageTwice(q: Question, pages: seq<Page>, rows: Rows, score: (Page, Question) -> nat)
    requires forall i, j :: 0 <= i < j < |pages| ==> pages[i].url != pages[j].url
    ensures forall i, j :: 0 <= i < j < |MatchesOf(q, pages, rows, score)| ==>
              MatchesOf(q, pages, rows, score)[i] != MatchesOf(q, pages, rows, score)[j]
  {
    if pages != [] {
      var rest, last := pages[..|pages| - 1], pages[|pages| - 1];
      NoPageTwice(q, rest, rows, score);
      InMatchesOf(q, rest, rows, score, MatchOf(q, last, score));
      assert forall p :: p in rest ==> p.url != last.url;
    }
  }

  ghost function Images(s: set<Page>, q: Question, score: (Page, Question) -> nat): set<Match> {
    set x | x in s :: MatchOf(q, x, score)
  }

  lemma {:induction false} ImagesAreAsMany(s: set<Page>, pages: seq<Page>, q: Question, score: (Page, Question) -> nat)
    requires forall i, j :: 0 <= i < j < |pages| ==> pages[i].url != pages[j].url
    requires forall x :: x in s ==> x in pages
    ensures |Images(s, q, score)| == |s|
  {
    if s != {} {
      var x :| x in s;
      var rest := s - {x};
      ImagesAreAsMany(rest, pages, q, score);
      assert Images(s, q, score) == Images(rest, q, score) + {MatchOf(q, x, score)};
      assert forall y :: y in rest ==> y.url != x.url;
      assert MatchOf(q, x, score) !in Images(rest, q, score);
    } else {
      assert Images(s, q, score) == {};
    }
  }

  // ---------------------------------------------------------------- the queue

  /** `selected_by_page`: what one call wants for a page. */
  datatype Selection = Selection(questions: set<string>, priority: int, score: nat)

  function Group(picks: seq<Match>): map<string, Selection> {
    if picks == [] then map[]
    else
      var before, m := Group(picks[..|picks| - 1]), picks[|picks| - 1];
      before[m.page := Joined(before, m)]
  }

  function Joined(groups: map<string, Selection>, m: Match): Selection {
    var s := if m.page in groups then groups[m.page] else Selection({}, m.priority, m.score);
    Selection(s.questions + {m.question}, Min(s.priority, m.priority), Max(s.score, m.score))
  }

  function Merged(rows: Rows, page: string, s: Selection): Row {
    if page !in rows then Row(s.questions, s.priority, s.score, Queued)
    else
      var row := rows[page];
      if row.status.Terminal? then row
      else Row(row.questions + s.questions, Min(row.priority, s.priority), Max(row.score, s.score), row.status)
  }

  function Enqueued(rows: Rows, groups: map<string, Selection>): Rows {
    map page | page in rows.Keys + groups.Keys ::
      if page in groups then Merged(rows, page, groups[page]) else rows[page]
  }

  datatype Marking = Marked | InvalidStatus

  class WikiPageQueue {
    var rows: Rows

    constructor ()
      ensures rows == map[]
    {
      rows := map[];
    }

    /** `select_and_enqueue`, over the active pages of the profile. It reads the queue in one session and
        writes it in another; what other writers may do in between is part of the histories below. */
    method SelectAndEnqueue(questions: seq<Question>, pages: seq<Page>, score: (Page, Question) -> nat)
      modifies this
      ensures rows == Enqueued(old(rows), Group(Picks(questions, pages, old(rows), score)))
      ensures forall m :: m in Picks(questions, pages, old(rows), score) ==>
                m.page in rows && rows[m.page].status == Queued && m.question in rows[m.page].questions
      ensures Picks(questions, pages, old(rows), score) != [] ==>
                exists page :: page in rows && !rows[page].status.Terminal?
    {
      var groups := Select(questions, pages, score);
      forall m | m in Picks(questions, pages, rows, score) ensures !Closed(rows, m.page) && m.page in groups {
        ChosenPagesAreQueued(questions, pages, rows, score, m, []);
        GroupHolds(Picks(questions, pages, rows, score), m);
      }
      ghost var before := rows;
      Enqueue(groups);
      forall m | m in Picks(questions, pages, before, score) ensures m.question in rows[m.page].questions {
        ChosenPagesAreQueued(questions, pages, before, score, m, []);
      }
      ghost var picks := Picks(questions, pages, before, score);
      assert picks != [] ==> picks[0] in picks;
    }

    /** The first session, and the choice made from what it read. */
    method Select(questions: seq<Question>, pages: seq<Page>, score: (Page, Question) -> nat)
      returns (groups: map<string, Selection>)
      ensures groups == Group(Picks(questions, pages, rows, score))
    {
      var matches := CollectMatches(questions, pages, rows, score);
      var picks := PickGreedily(Sort(matches, InOrder()), questions);
      groups := map[];
      for k := 0 to |picks|
        invariant groups == Group(picks[..k])
      {
        assert picks[..k + 1][..k] == picks[..k];
        groups := groups[picks[k].page := Joined(groups, picks[k])];
      }
      assert picks[..|picks|] == picks;
    }

    /** The second session. */
    method Enqueue(groups: map<string, Selection>)
      modifies this
      ensures rows == Enqueued(old(rows), groups)
      ensures forall page :: page in groups && !Closed(old(rows), page) ==> page in rows && rows[page].status == Queued
    {
      ghost var before := rows;
      var todo := groups.Keys;
      while todo != {}
        invariant todo <= groups.Keys
        invariant PartlyEnqueued(before, groups, todo, rows)
        decreases |todo|
      {
        var page :| page in todo;
        EnqueuesOne(before, groups, todo, rows, page);
        todo := todo - {page};
        var s := groups[page];
        if page !in rows {
          rows := rows[page := Row(s.questions, s.priority, s.score, Queued)];
        } else if !rows[page].status.Terminal? {
          var row := rows[page];
          rows := rows[page := Row(row.questions + s.questions, Min(row.priority, s.priority),
                                   Max(row.score, s.score), row.status)];
        }
      }
      assert rows == Enqueued(before, groups);
    }

    /** `mark_queue_terminal` */
    method MarkTerminal(statuses: map<string, Status>) returns (r: Marking)
      modifies this
      ensures r.InvalidStatus? <==> exists page :: page in statuses && statuses[page].Queued?
      ensures rows == if r.Marked? then Marks(old(rows), statuses) else old(rows)
    {
      if exists page :: page in statuses && statuses[page].Queued? {
        return InvalidStatus;
      }
      rows := map page | page in rows ::
        if page in statuses then rows[page].(status := statuses[page]) else rows[page];
      return Marked;
    }

    /** `should_defer_external_work`: some queued page is still open. */
    method ShouldDefer() returns (defer: bool)
      ensures defer <==> exists page :: page in rows && !rows[page].status.Terminal?
    {
      defer := exists page :: page in rows && !rows[page].status.Terminal?;
    }
  }

  ghost predicate PartlyEnqueued(before: Rows, groups: map<string, Selection>, todo: set<string>, rows: Rows) {
    && (forall page :: page in rows <==> page in before || (page in groups && page !in todo))
    && (forall page :: page in rows ==>
          rows[page] == if page in groups && page !in todo then Merged(before, page, groups[page]) else before[page])
  }

  lemma EnqueuesOne(before: Rows, groups: map<string, Selection>, todo: set<string>, rows: Rows, page: string)
    requires PartlyEnqueued(before, groups, todo, rows) && page in todo && page in groups
    ensures page in rows <==> page in before
    ensures page in rows ==> rows[page] == before[page]
    ensures PartlyEnqueued(before, groups, todo - {page}, rows[page := Merged(rows, page, groups[page])])
    ensures page in rows && rows[page].status.Terminal? ==> PartlyEnqueued(before, groups, todo - {page}, rows)
  {
  }

  function Marks(rows: Rows, statuses: map<string, Status>): Rows {
    map page | page in rows :: if page in statuses then rows[page].(status := statuses[page]) else rows[page]
  }

  // ---------------------------------------------------------------- histories of the queue

  /** A session that writes; what it enqueues was chosen at any earlier time. */
  datatype Step = Enqueue(groups: map<string, Selection>) | Mark(statuses: map<string, Status>)

  ghost function After(rows: Rows, step: Step): Rows {
    match step
    case Enqueue(groups) => Enqueued(rows, groups)
    case Mark(statuses) =>
      if exists page :: page in statuses && statuses[page].Queued? then rows else Marks(rows, statuses)
  }

  ghost function AfterAll(rows: Rows, steps: seq<Step>): Rows {
    if steps == [] then rows else After(AfterAll(rows, steps[..|steps| - 1]), steps[|steps| - 1])
  }

  /** A row gains questions, urgency and score; once terminal it stays terminal and gains nothing. */
  predicate Gains(before: Row, after: Row) {
    && before.questions <= after.questions
    && after.priority <= before.priority
    && after.score >= before.score
    && (before.status.Terminal? ==>
          after.status.Terminal? && after == before.(status := after.status))
  }

  lemma {:induction false} RowsOnlyGain(rows: Rows, steps: seq<Step>, page: string)
    requires page in rows
    ensures page in AfterAll(rows, steps) && Gains(rows[page], AfterAll(rows, steps)[page])
  {
    if steps != [] {
      RowsOnlyGain(rows, steps[..|steps| - 1], page);
    }
  }

  // ---------------------------------------------------------------- exactly what a row holds

  /** What a page's row was made of: what it held at first, then what each step enqueued for the page
      while its row was absent or open. */
  ghost function Added(rows: Rows, steps: seq<Step>, page: string): seq<Selection> {
    if steps == [] then if page in rows then [Content(rows[page])] else []
    else
      var rest, last := steps[..|steps| - 1], steps[|steps| - 1];
      Added(rows, rest, page)
      + (if last.Enqueue? && page in last.groups && !Closed(AfterAll(rows, rest), page)
         then [last.groups[page]] else [])
  }

  function Content(row: Row): Selection {
    Selection(row.questions, row.priority, row.score)
  }

  /** Exactly the questions of the parts, the least of their priorities and the greatest of their
      scores. */
  ghost predicate MadeOf(s: Selection, parts: seq<Selection>) {
    && (forall q :: q in s.questions <==> exists k :: 0 <= k < |parts| && q in parts[k].questions)
    && (forall k :: 0 <= k < |parts| ==> s.priority <= parts[k].priority && parts[k].score <= s.score)
    && (exists k :: 0 <= k < |parts| && s.priority == parts[k].priority)
    && (exists k :: 0 <= k < |parts| && s.score == parts[k].score)
  }

  lemma MadeOfOne(s: Selection)
    ensures MadeOf(s, [s])
  {
    assert [s][0] == s;
  }

  lemma MadeOfOneMore(s: Selection, parts: seq<Selection>, more: Selection)
    requires MadeOf(s, parts)
    ensures MadeOf(Selection(s.questions + more.questions, Min(s.priority, more.priority), Max(s.score, more.score)),
                   parts + [more])
  {
    var longer := parts + [more];
    assert longer[|parts|] == more && forall k :: 0 <= k < |parts| ==> longer[k] == parts[k];
    var i :| 0 <= i < |parts| && s.priority == parts[i].priority;
    var j :| 0 <= j < |parts| && s.score == parts[j].score;
    assert longer[i].priority == s.priority && longer[j].score == s.score;
    forall q ensures q in s.questions + more.questions <==> exists k :: 0 <= k < |longer| && q in longer[k].questions {
      if q in s.questions {
        var k :| 0 <= k < |parts| && q in parts[k].questions;
        assert q in longer[k].questions;
      }
    }
  }

  /** After any history a page has a row exactly if it had one or one was enqueued for it, and the row is
      made of exactly what was enqueued for it while it was absent or open. */
  lemma {:induction false} RowsHoldExactlyWhatWasAdded(rows: Rows, steps: seq<Step>, page: string)
    ensures page in AfterAll(rows, steps) <==> Added(rows, steps, page) != []
    ensures page in AfterAll(rows, steps) ==> MadeOf(Content(AfterAll(rows, steps)[page]), Added(rows, steps, page))
  {
    if steps == [] {
      if page in rows {
        MadeOfOne(Content(rows[page]));
      }
    } else {
      var rest, last := steps[..|steps| - 1], steps[|steps| - 1];
      RowsHoldExactlyWhatWasAdded(rows, rest, page);
      var before := AfterAll(rows, rest);
      if last.Enqueue? && page in last.groups && !Closed(before, page) {
        if page in before {
          MadeOfOneMore(Content(before[page]), Added(rows, rest, page), last.groups[page]);
        } else {
          MadeOfOne(last.groups[page]);
          assert Added(rows, steps, page) == [last.groups[page]];
        }
      } else {
        assert Added(rows, steps, page) == Added(rows, rest, page);
      }
    }
  }

  /** The picks of one page. */
  function PicksOf(picks: seq<Match>, page: string): seq<Selection> {
    if picks == [] then []
    else
      var m := picks[|picks| - 1];
      PicksOf(picks[..|picks| - 1], page)
      + (if m.page == page then [Selection({m.question}, m.priority, m.score)] else [])
  }

  /** What is chosen for a page is made of exactly its picks. */
  lemma {:induction false} ChoiceIsMadeOfItsPicks(picks: seq<Match>, page: string)
    ensures page in Group(picks) <==> PicksOf(picks, page) != []
    ensures page in Group(picks) ==> MadeOf(Group(picks)[page], PicksOf(picks, page))
  {
    if picks != [] {
      var rest, m := picks[..|picks| - 1], picks[|picks| - 1];
      ChoiceIsMadeOfItsPicks(rest, page);
      if m.page == page {
        var part := Selection({m.question}, m.priority, m.score);
        if page in Group(rest) {
          MadeOfOneMore(Group(rest)[page], PicksOf(rest, page), part);
        } else {
          MadeOfOne(part);
          assert PicksOf(picks, page) == [part] && Group(picks)[page] == part;
        }
      } else {
        assert PicksOf(picks, page) == PicksOf(rest, page);
      }
    }
  }

  /** A row is open from its first enqueuing until a marking names it, and it then has the status marked;
      a call that names a status that is not terminal marks nothing. */
  lemma OnlyMarkingEndsARow(rows: Rows, step: Step, page: string)
    ensures var after := After(rows, step);
      var marked := step.Mark? && page in rows && page in step.statuses
                    && forall other :: other in step.statuses ==> step.statuses[other].Terminal?;
      && (page in after <==> page in rows || (step.Enqueue? && page in step.groups))
      && (page in after ==> after[page].status == if marked then step.statuses[page]
                                                  else if page in rows then rows[page].status else Queued)
  {
  }

  /** What a match is: an open page with a score for the question, by the question's priority. */
  lemma MatchesMean(q: Question, p: Page, rows: Rows, score: (Page, Question) -> nat)
    ensures Matches(q, p, rows, score)
            <==> score(p, q) > 0 && (p.id in rows ==> rows[p.id].status == Queued)
    ensures var m := MatchOf(q, p, score);
      && m.question == q.id && m.page == p.id && m.url == p.url
      && m.priority == q.priority && m.score == score(p, q)
  {
  }

  /** No page whose row is terminal is ever chosen. Whatever was written between the choice and its
      enqueuing, a chosen page then ends up in a row that has the question, at least its urgency and at
      least its score; unless the row became terminal in between, which then stays as it is. */
  lemma ChosenPagesAreQueued(
    questions: seq<Question>, pages: seq<Page>, rows: Rows, score: (Page, Question) -> nat, m: Match,
    between: seq<Step>)
    requires m in Picks(questions, pages, rows, score)
    ensures !Closed(rows, m.page)
    ensures var now := AfterAll(rows, between);
      var after := After(now, Enqueue(Group(Picks(questions, pages, rows, score))));
      && m.page in after
      && (if Closed(now, m.page) then after[m.page] == now[m.page]
          else after[m.page].status == Queued && m.question in after[m.page].questions
               && after[m.page].priority <= m.priority && after[m.page].score >= m.score)
  {
    var matches := AllMatches(questions, pages, rows, score);
    var sorted := Sort(matches, InOrder());
    SortKeeps(matches, InOrder());
    TakenSoFar(sorted, questions, m.question);
    assert m in multiset(sorted) && m in multiset(matches);
    InAllMatches(questions, pages, rows, score, m);
    GroupHolds(Picks(questions, pages, rows, score), m);
  }

  lemma {:induction false} GroupHolds(picks: seq<Match>, m: Match)
    requires m in picks
    ensures var groups := Group(picks);
      && m.page in groups && m.question in groups[m.page].questions
      && groups[m.page].priority <= m.priority && groups[m.page].score >= m.score
  {
    var rest, last := picks[..|picks| - 1], picks[|picks| - 1];
    assert picks == rest + [last];
    if m in rest {
      GroupHolds(rest, m);
    }
  }
}
