/** What a crawl that stayed below its limits cannot have overlooked. */
module RedditCoverage {
  import opened RedditCrawl

  predicate Known(s: State, n: string) {
    n in s.visited || n in s.frontier
  }

  /** Nothing that was known, listed or found is forgotten. */
  ghost predicate Grows(s: State, s': State) {
    && (forall n :: Known(s, n) ==> Known(s', n))
    && |s.visited| + |s.frontier| <= |s'.visited| + |s'.frontier|
    && s.seenThreads <= s'.seenThreads && |s.seenThreads| <= |s'.seenThreads|
    && s.seenMovies <= s'.seenMovies && |s.movies| <= |s'.movies|
  }

  ghost predicate NameKept(s: State, name: string, lim: Limits) {
    Normalize(name) == "" || Known(s, Normalize(name)) || |s.visited| + |s.frontier| >= lim.maxSubs
  }

  ghost predicate ThreadKept(s: State, th: Thread, lim: Limits) {
    th.id == "" || th.id in s.seenThreads || |s.seenThreads| >= lim.maxThreads
  }

  ghost predicate MovieKept(s: State, m: Movie, lim: Limits) {
    Key(m) in s.seenMovies || |s.movies| >= lim.limit
  }

  /** Everything a step offered is kept, or the limit that shut it out is reached. */
  ghost predicate Kept(s: State, e: Event, lim: Limits) {
    match e
    case Named(name) => NameKept(s, name, lim)
    case Listed(th) => ThreadKept(s, th, lim)
    case Scraped(page) =>
      && (forall n :: n in page.learned ==> NameKept(s, n, lim))
      && (forall m :: m in page.found ==> MovieKept(s, m, lim))
    case Visited => true
  }

  lemma KeptStays(s: State, s': State, e: Event, lim: Limits)
    requires Grows(s, s') && Kept(s, e, lim)
    ensures Kept(s', e, lim)
  {
    hide Normalize, Key, Known;
  }

  lemma GrowsOn(s: State, s': State, s'': State)
    requires Grows(s, s') && Grows(s', s'')
    ensures Grows(s, s'')
  {
    hide Known;
  }

  lemma EnqueueGrows(s: State, name: string, lim: Limits)
    ensures Grows(s, Enqueue(s, name, lim)) && NameKept(Enqueue(s, name, lim), name, lim)
  {
    hide Normalize;
  }

  lemma {:induction false} EnqueueAllGrows(s: State, names: seq<string>, lim: Limits)
    ensures Grows(s, EnqueueAll(s, names, lim))
    ensures forall n :: n in names ==> NameKept(EnqueueAll(s, names, lim), n, lim)
  {
    if names != [] {
      var front, last := names[..|names| - 1], names[|names| - 1];
      var before := EnqueueAll(s, front, lim);
      EnqueueAllGrows(s, front, lim);
      EnqueueGrows(before, last, lim);
      var after := EnqueueAll(s, names, lim);
      GrowsOn(s, before, after);
      hide EnqueueAll, Enqueue, Grows, NameKept;
      forall n | n in names
        ensures NameKept(after, n, lim)
      {
        if n in front {
          NameStays(before, after, n, lim);
        }
      }
    }
  }

  lemma NameStays(s: State, s': State, n: string, lim: Limits)
    requires Grows(s, s') && NameKept(s, n, lim)
    ensures NameKept(s', n, lim)
  {
    hide Normalize, Known;
  }

  lemma {:induction false} TakeMoviesGrows(s: State, found: seq<Movie>, th: Thread, lim: Limits)
    ensures Grows(s, TakeMovies(s, found, th, lim))
    ensures forall m :: m in found ==> MovieKept(TakeMovies(s, found, th, lim), m, lim)
    decreases |found|
  {
    hide Key;
    if found != [] {
      var first, rest, after := found[0], found[1..], TakeMovies(s, found, th, lim);
      var s' := if Key(first) in s.seenMovies then s else OneMovie(s, first, th);
      assert Grows(s, s') && Key(first) in s'.seenMovies;
      if s' == s || |s'.movies| < lim.limit {
        TakeMoviesGrows(s', rest, th, lim);
        assert after == TakeMovies(s', rest, th, lim);
        GrowsOn(s, s', after);
      }
      assert forall m :: m in found ==> m == first || m in rest;
    }
  }

  lemma ScrapeGrows(s: State, page: Page, lim: Limits)
    requires MayScrape(s, lim)
    ensures Grows(s, Scrape(s, page, lim)) && Kept(Scrape(s, page, lim), Scraped(page), lim)
  {
    var th := s.pending[0];
    var s1 := s.(pending := s.pending[1..], scraped := s.scraped + [th.id]);
    var s2, s3 := EnqueueAll(s1, page.learned, lim), Scrape(s, page, lim);
    EnqueueAllGrows(s1, page.learned, lim);
    TakeMoviesGrows(s2, page.found, th, lim);
    GrowsOn(s1, s2, s3);
    assert Grows(s, s3);
    forall n | n in page.learned
      ensures NameKept(s3, n, lim)
    {
      NameStays(s2, s3, n, lim);
    }
  }

  lemma AddThreadGrows(s: State, th: Thread, lim: Limits)
    ensures Grows(s, AddThread(s, th, lim)) && ThreadKept(AddThread(s, th, lim), th, lim)
  {
    if th.id != "" && th.id !in s.seenThreads && |s.seenThreads| < lim.maxThreads {
      var noted := s.(seenThreads := s.seenThreads + {th.id});
      assert |noted.seenThreads| == |s.seenThreads| + 1;
      EnqueueGrows(noted, th.subreddit, lim);
      hide Enqueue, Normalize;
      assert Grows(s, noted);
      assert AddThread(s, th, lim).seenThreads == noted.seenThreads by {
        EnqueueLeaves(noted, th.subreddit, lim);
      }
    }
  }

  lemma EnqueueLeaves(s: State, name: string, lim: Limits)
    ensures Enqueue(s, name, lim).(frontier := s.frontier) == s
  {
    hide Normalize;
  }

  lemma VisitKnows(s: State, s': State, n: string)
    requires s.frontier != [] && s'.frontier == s.frontier[1..] && s'.visited == s.visited + {s.frontier[0]}
    requires Known(s, n)
    ensures Known(s', n)
  {
    if n in s.frontier && n != s.frontier[0] {
      var i :| 0 <= i < |s.frontier| && s.frontier[i] == n;
      assert s'.frontier[i - 1] == n;
    }
  }

  lemma VisitGrows(s: State, lim: Limits)
    requires Bounded(s, lim) && MayVisit(s, lim)
    ensures Grows(s, Visit(s, lim))
  {
    var s' := Visit(s, lim);
    VisitKeeps(s, lim);
    hide Bounded, Known;
    forall n | Known(s, n)
      ensures Known(s', n)
    {
      VisitKnows(s, s', n);
    }
  }

  lemma StepGrows(s: State, e: Event, lim: Limits)
    requires Bounded(s, lim) && Possible(s, e, lim)
    ensures Grows(s, Step(s, e, lim)) && Kept(Step(s, e, lim), e, lim)
  {
    hide Bounded, Grows;
    match e
    case Named(name) => EnqueueGrows(s, name, lim);
    case Listed(th) => AddThreadGrows(s, th, lim);
    case Scraped(page) => ScrapeGrows(s, page, lim);
    case Visited => VisitGrows(s, lim);
  }

  /** In every run, each name, thread and movie that was ever offered is kept, unless it is
      not crawlable or nameless, or the run has reached the limit for its kind. */
  lemma {:induction false} NothingForgotten(events: seq<Event>, s: State, e: Event, lim: Limits)
    requires AllPossible(events, lim) && s == After(events, lim) && e in events
    ensures Kept(s, e, lim)
  {
    var front, last := events[..|events| - 1], events[|events| - 1];
    var before := After(front, lim);
    RunBounded(front, before, lim);
    assert e == last || e in front;
    hide Bounded, Grows, Kept, Step, Possible;
    StepGrows(before, last, lim);
    if e in front {
      NothingForgotten(front, before, e, lim);
      KeptStays(before, s, e, lim);
    }
  }
}
