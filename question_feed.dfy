/**
  The public feed: GET /api/questions?page=N answers one page of at most ten
  questions, most recently updated first, with the page number, the page count
  and the total number of questions.
*/
module QuestionFeed {
  import opened Common
  import opened QuestionStore

  const ItemsPerPage: nat := 10

  /** The `page` query parameter; a missing or empty one reads as page 1. */
  function PageNumber(param: Option<int>): int {
    if param.Some? then param.value else 1
  }

  /** How many questions the query skips. Pages below 1 give a negative skip: nothing guards them. */
  function Skip(page: int): int {
    (page - 1) * ItemsPerPage
  }

  /** `Math.ceil(total / 10)` on a non-negative count: the least page count that holds every question. */
  function TotalPages(total: nat): (n: nat)
    ensures total == 0 <==> n == 0
    ensures total > 0 ==> (n - 1) * ItemsPerPage < total <= n * ItemsPerPage
  {
    if total % ItemsPerPage == 0 then total / ItemsPerPage else total / ItemsPerPage + 1
  }

  // ---- the order ----

  /** Most recently updated first. */
  ghost predicate SortedByRecency(qs: seq<Question>) {
    forall i, j :: 0 <= i < j < |qs| ==> qs[i].updatedAt >= qs[j].updatedAt
  }

  /** Insert `q` before the first question updated no later than it. */
  function Insert(q: Question, sorted: seq<Question>): (r: seq<Question>)
    requires SortedByRecency(sorted)
    ensures SortedByRecency(r)
    ensures multiset(r) == multiset(sorted) + multiset{q}
    ensures |r| == |sorted| + 1
    ensures forall x :: x in r ==> x == q || x in sorted
  {
    if sorted == [] || q.updatedAt >= sorted[0].updatedAt then
      [q] + sorted
    else
      var rest := Insert(q, sorted[1..]);
      assert sorted == [sorted[0]] + sorted[1..];
      LaterAfterHead(sorted[0], q, sorted[1..], rest);
      [sorted[0]] + rest
  }

  /** A question updated no earlier than everything after it keeps a sorted sequence sorted. */
  lemma LaterAfterHead(h: Question, q: Question, tail: seq<Question>, rest: seq<Question>)
    requires SortedByRecency([h] + tail) && SortedByRecency(rest)
    requires h.updatedAt >= q.updatedAt
    requires forall x :: x in rest ==> x == q || x in tail
    ensures SortedByRecency([h] + rest)
  {
    forall x | x in rest ensures h.updatedAt >= x.updatedAt {
      if x != q {
        var k :| 0 <= k < |tail| && tail[k] == x;
        assert ([h] + tail)[0] == h && ([h] + tail)[k + 1] == x;
      }
    }
    var s := [h] + rest;
    forall i, j | 0 <= i < j < |s| ensures s[i].updatedAt >= s[j].updatedAt {
      if i == 0 {
        assert s[j] == rest[j - 1];
      } else {
        assert s[i] == rest[i - 1] && s[j] == rest[j - 1];
      }
    }
  }

  /**
    The questions in the order the feed query returns them: most recently
    updated first, and a permutation of the stored questions.
  */
  function ByRecency(qs: seq<Question>): (r: seq<Question>)
    ensures SortedByRecency(r)
    ensures multiset(r) == multiset(qs)
    ensures |r| == |qs|
  {
    if qs == [] then []
    else
      assert qs == [qs[0]] + qs[1..];
      Insert(qs[0], ByRecency(qs[1..]))
  }

  // ---- the page ----

  /** The positions `skip` up to `skip + take` of `s`, cut off at its end. */
  function Window(s: seq<Question>, skip: nat, take: nat): seq<Question> {
    var lo := if skip <= |s| then skip else |s|;
    var hi := if skip + take <= |s| then skip + take else |s|;
    s[lo..hi]
  }

  datatype FeedPage = FeedPage(questions: seq<Question>, currentPage: int, totalPages: nat, totalQuestions: nat)

  /** The answer, or the negative skip that a page below 1 hands to the query unguarded. */
  datatype FeedResult = Page(page: FeedPage) | NegativeSkip(skip: int)

  /**
    The handler's paging over the questions in the order the query returns
    them (`feed`). For a page number p of at least 1 the answer holds feed
    positions (p - 1) * 10 onward: ten of them, or what is left, or none past
    the end; it reports p, the page count and the total count.
  */
  function Answer(feed: seq<Question>, pageParam: Option<int>): (r: FeedResult)
    ensures r.NegativeSkip? <==> PageNumber(pageParam) < 1
    ensures r.NegativeSkip? ==> r.skip == Skip(PageNumber(pageParam)) < 0
    ensures r.Page? ==>
      var skip := Skip(PageNumber(pageParam));
      && |r.page.questions| == (if skip + ItemsPerPage <= |feed| then ItemsPerPage
                                else if skip <= |feed| then |feed| - skip else 0)
      && (forall k :: 0 <= k < |r.page.questions| ==> r.page.questions[k] == feed[skip + k])
      && r.page.currentPage == PageNumber(pageParam)
      && r.page.totalQuestions == |feed|
      && r.page.totalPages == TotalPages(|feed|)
  {
    var page := PageNumber(pageParam);
    var skip := Skip(page);
    if skip < 0 then
      NegativeSkip(skip)
    else
      Page(FeedPage(Window(feed, skip, ItemsPerPage), page, TotalPages(|feed|), |feed|))
  }

  /**
    GET /api/questions: the paging applied to the questions most recently
    updated first. For a page number of at least 1 the answer holds at most ten
    questions, all from the store and most recent first, the page number as
    asked, the page count and the total count; a smaller page number is passed
    on as a negative skip.
  */
  function Get(all: seq<Question>, pageParam: Option<int>): (r: FeedResult)
    ensures r.NegativeSkip? <==> PageNumber(pageParam) < 1
    ensures r.Page? ==>
      && |r.page.questions| <= ItemsPerPage
      && SortedByRecency(r.page.questions)
      && multiset(r.page.questions) <= multiset(all)
      && r.page.currentPage == PageNumber(pageParam)
      && r.page.totalQuestions == |all|
      && r.page.totalPages == TotalPages(|all|)
  {
    var feed := ByRecency(all);
    var r := Answer(feed, pageParam);
    if r.Page? then
      WindowFacts(feed, Skip(PageNumber(pageParam)), ItemsPerPage);
      r
    else
      r
  }

  /**
    For a page number p of at least 1, the page GET answers is the window of
    the recency order that starts at position (p - 1) * 10 and holds up to ten
    questions.
  */
  lemma GetIsWindow(all: seq<Question>, p: int)
    requires p >= 1
    ensures Get(all, Some(p)).Page?
    ensures Get(all, Some(p)).page.questions == Window(ByRecency(all), Skip(p), ItemsPerPage)
  {
    var f := ByRecency(all);
    assert Get(all, Some(p)) == Answer(f, Some(p));
  }

  /** A window of a sorted sequence is sorted and holds some of its elements. */
  lemma WindowFacts(s: seq<Question>, skip: nat, take: nat)
    requires SortedByRecency(s)
    ensures SortedByRecency(Window(s, skip, take))
    ensures multiset(Window(s, skip, take)) <= multiset(s)
    ensures |Window(s, skip, take)| <= take
  {
    var lo := if skip <= |s| then skip else |s|;
    var hi := if skip + take <= |s| then skip + take else |s|;
    assert s == s[..lo] + s[lo..hi] + s[hi..];
  }

  /** Page 1 starts at position 0, and each page starts ten positions after the one before. */
  lemma PagesAdjacent(p: int)
    ensures Skip(1) == 0
    ensures Skip(p + 1) == Skip(p) + ItemsPerPage
  {
  }

  /** The page that position `i` of the feed lands on. */
  function PageOf(i: nat): (p: int)
    ensures p >= 1 && Skip(p) <= i < Skip(p) + ItemsPerPage
  {
    i / ItemsPerPage + 1
  }

  /**
    Every position of the feed is on exactly one page, and that page is among
    the `totalPages` the answer reports.
  */
  lemma EveryPositionOnOnePage(total: nat, i: nat, p: int)
    requires i < total
    ensures PageOf(i) <= TotalPages(total)
    ensures Skip(p) <= i < Skip(p) + ItemsPerPage ==> p == PageOf(i)
  {
  }

  /** Pages 1 to `n` of the feed, read one after the other. */
  function PagesUpTo(feed: seq<Question>, n: nat): seq<Question> {
    if n == 0 then [] else PagesUpTo(feed, n - 1) + Answer(feed, Some(n)).page.questions
  }

  /** Reading pages 1 to `n` yields the first `10 n` questions of the feed. */
  lemma {:induction false} PagesUpToPrefix(feed: seq<Question>, n: nat)
    ensures PagesUpTo(feed, n) == feed[..if n * ItemsPerPage <= |feed| then n * ItemsPerPage else |feed|]
  {
    if n > 0 {
      PagesUpToPrefix(feed, n - 1);
      var lo := if (n - 1) * ItemsPerPage <= |feed| then (n - 1) * ItemsPerPage else |feed|;
      var hi := if n * ItemsPerPage <= |feed| then n * ItemsPerPage else |feed|;
      assert Answer(feed, Some(n)).page.questions == feed[lo..hi];
      assert feed[..lo] + feed[lo..hi] == feed[..hi];
    }
  }

  /** Reading pages 1 to `totalPages` yields the whole feed, each question once, in order. */
  lemma PagesCoverFeed(feed: seq<Question>)
    ensures PagesUpTo(feed, TotalPages(|feed|)) == feed
  {
    PagesUpToPrefix(feed, TotalPages(|feed|));
  }

  /** A page beyond the last one is empty. */
  lemma PastLastPageEmpty(feed: seq<Question>, p: int)
    requires p > TotalPages(|feed|)
    ensures Answer(feed, Some(p)).page.questions == []
  {
  }

  /** Fifteen questions: page 1 holds ten, page 2 the remaining five, there are two pages. */
  lemma FifteenQuestions(feed: seq<Question>)
    requires |feed| == 15
    ensures TotalPages(|feed|) == 2
    ensures |Answer(feed, Some(1)).page.questions| == 10
    ensures |Answer(feed, Some(2)).page.questions| == 5
    ensures Answer(feed, Some(3)).page.questions == []
    ensures Answer(feed, Some(1)).page.questions + Answer(feed, Some(2)).page.questions == feed
  {
  }
}
