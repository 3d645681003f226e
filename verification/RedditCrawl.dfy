/** The bounded Reddit crawl of the movie scraper: what one step does to the crawl's state,
    and what every run of such steps keeps, whatever the pages say. */
module RedditCrawl {
  import opened Common
  import opened GoStrings

  // ---------- names ----------

  const BLOCKED: set<string> := {
    "all", "popular", "askreddit", "todayilearned", "news", "worldnews", "pics", "funny",
    "videos", "memes", "gaming", "technology", "science"
  }

  /** A subreddit's name in the form the crawl keeps it, or "" if it is not to be crawled. */
  function Normalize(name: string): string {
    var n := TrimSpace(TrimPrefix(Lower(name), "r/"));
    if n in BLOCKED then "" else n
  }

  ghost predicate Crawlable(n: string) {
    n != "" && exists name: string :: Normalize(name) == n
  }

  /** Normalizing twice changes nothing exactly when the first result does not start with
      the prefix again, as the result for r/r/movies does. */
  lemma NormalizeTwice(name: string)
    ensures Normalize(Normalize(name)) == Normalize(name) <==> !("r/" <= Normalize(name))
  {
    var n := Normalize(name);
    var first := TrimPrefix(Lower(name), "r/");
    forall i | 0 <= i < |n|
      ensures LowerChar(n[i]) == n[i]
    {
      assert n[i] in first;
      assert n[i] in Lower(name);
    }
    assert Lower(n) == n;
    if !("r/" <= n) && n != "" {
      assert TrimSpace(n) == n;
    }
  }

  // ---------- the state ----------

  datatype Thread = Thread(id: string, title: string, subreddit: string)
  datatype Movie = Movie(title: string, year: int, score: int, source: string)
  datatype Page = Page(found: seq<Movie>, learned: seq<string>)
  datatype Limits = Limits(maxSubs: nat, maxThreads: nat, limit: int)

  function LimitsOf(maxSubreddits: int, maxThreads: int, limit: int): Limits {
    Limits(if maxSubreddits <= 0 then 20 else maxSubreddits, if maxThreads <= 0 then 25 else maxThreads, limit)
  }

  function Decimal(n: nat): string {
    if n < 10 then ["0123456789"[n]] else Decimal(n / 10) + ["0123456789"[n % 10]]
  }

  function Key(m: Movie): string {
    if m.year > 0 then m.title + "|" + Decimal(m.year) else m.title
  }

  function SourceOf(th: Thread): string {
    if th.subreddit != "" then "reddit (r/" + th.subreddit + ": " + th.title + ")"
    else "reddit (" + th.title + ")"
  }

  /** The crawl's variables; `scraped` records the threads whose pages were fetched. */
  datatype State = State(
    visited: set<string>, frontier: seq<string>,
    seenThreads: set<string>, pending: seq<Thread>, scraped: seq<string>,
    seenMovies: set<string>, movies: seq<Movie>)

  const START := State({}, [], {}, [], [], {}, [])

  // ---------- the closures ----------

  function Enqueue(s: State, name: string, lim: Limits): State {
    var sub := Normalize(name);
    if sub == "" || sub in s.visited || sub in s.frontier then s
    else if |s.visited| + |s.frontier| >= lim.maxSubs then s
    else s.(frontier := s.frontier + [sub])
  }

  function EnqueueAll(s: State, names: seq<string>, lim: Limits): State {
    if names == [] then s
    else Enqueue(EnqueueAll(s, names[..|names| - 1], lim), names[|names| - 1], lim)
  }

  function AddThread(s: State, th: Thread, lim: Limits): State {
    if th.id == "" || th.id in s.seenThreads || |s.seenThreads| >= lim.maxThreads then s
    else
      var s := s.(seenThreads := s.seenThreads + {th.id});
      var s := if th.subreddit != "" then Enqueue(s, th.subreddit, lim) else s;
      s.(pending := s.pending + [th])
  }

  /** Each movie not met before, until the limit is reached. */
  function TakeMovies(s: State, found: seq<Movie>, th: Thread, lim: Limits): State
    decreases |found|
  {
    if found == [] then s
    else if Key(found[0]) in s.seenMovies then TakeMovies(s, found[1..], th, lim)
    else
      var s := s.(
        seenMovies := s.seenMovies + {Key(found[0])},
        movies := s.movies + [found[0].(source := SourceOf(th))]);
      if |s.movies| >= lim.limit then s else TakeMovies(s, found[1..], th, lim)
  }

  predicate MayScrape(s: State, lim: Limits) {
    s.pending != [] && |s.movies| < lim.limit
  }

  predicate MayVisit(s: State, lim: Limits) {
    s.frontier != [] && |s.movies| < lim.limit
  }

  function Scrape(s: State, page: Page, lim: Limits): State
    requires MayScrape(s, lim)
  {
    var th := s.pending[0];
    var s := s.(pending := s.pending[1..], scraped := s.scraped + [th.id]);
    TakeMovies(EnqueueAll(s, page.learned, lim), page.found, th, lim)
  }

  function Visit(s: State, lim: Limits): State
    requires MayVisit(s, lim)
  {
    s.(frontier := s.frontier[1..], visited := s.visited + {s.frontier[0]})
  }

  // ---------- runs ----------

  datatype Event = Named(name: string) | Listed(th: Thread) | Scraped(page: Page) | Visited

  predicate Possible(s: State, e: Event, lim: Limits) {
    match e
    case Scraped(_) => MayScrape(s, lim)
    case Visited => MayVisit(s, lim)
    case _ => true
  }

  function Step(s: State, e: Event, lim: Limits): State
    requires Possible(s, e, lim)
  {
    match e
    case Named(name) => Enqueue(s, name, lim)
    case Listed(th) => AddThread(s, th, lim)
    case Scraped(page) => Scrape(s, page, lim)
    case Visited => Visit(s, lim)
  }

  /** The state after the steps; one that is not possible when its turn comes does nothing. */
  function After(events: seq<Event>, lim: Limits): State {
    if events == [] then START
    else
      var before, e := After(events[..|events| - 1], lim), events[|events| - 1];
      if Possible(before, e, lim) then Step(before, e, lim) else before
  }

  predicate AllPossible(events: seq<Event>, lim: Limits) {
    events == [] ||
    (AllPossible(events[..|events| - 1], lim) &&
     Possible(After(events[..|events| - 1], lim), events[|events| - 1], lim))
  }

  /** The crawl gets to s by the given steps, each possible when its turn comes. */
  ghost predicate Reaches(events: seq<Event>, s: State, lim: Limits) {
    s == After(events, lim) && AllPossible(events, lim)
  }

  // ---------- what every run keeps ----------

  ghost predicate SubsOk(s: State, lim: Limits) {
    && Distinct(s.frontier)
    && (forall n :: n in s.frontier ==> n !in s.visited)
    && (forall n :: n in s.frontier || n in s.visited ==> Crawlable(n))
    && |s.visited| + |s.frontier| <= lim.maxSubs
  }

  /** All threads ever added, in order: those scraped and those that wait. */
  function Threads(s: State): seq<string> {
    s.scraped + Ids(s.pending)
  }

  function Ids(ths: seq<Thread>): (r: seq<string>)
    ensures |r| == |ths|
  {
    seq(|ths|, i requires 0 <= i < |ths| => ths[i].id)
  }

  ghost predicate ThreadsOk(s: State, lim: Limits) {
    && Distinct(Threads(s)) && "" !in Threads(s)
    && (forall id :: id in s.seenThreads <==> id in Threads(s))
    && |Threads(s)| == |s.seenThreads| <= lim.maxThreads
  }

  function Keys(ms: seq<Movie>): (r: seq<string>)
    ensures |r| == |ms|
  {
    seq(|ms|, i requires 0 <= i < |ms| => Key(ms[i]))
  }

  ghost predicate MoviesOk(s: State, lim: Limits) {
    && Distinct(Keys(s.movies))
    && (forall k :: k in s.seenMovies <==> k in Keys(s.movies))
    && |s.movies| <= (if lim.limit > 0 then lim.limit else 0)
  }

  ghost predicate Bounded(s: State, lim: Limits) {
    SubsOk(s, lim) && ThreadsOk(s, lim) && MoviesOk(s, lim)
  }

  lemma EnqueueKeeps(s: State, name: string, lim: Limits)
    requires SubsOk(s, lim)
    ensures SubsOk(Enqueue(s, name, lim), lim)
    ensures Enqueue(s, name, lim).(frontier := s.frontier) == s
  {
    hide Normalize;
  }

  lemma {:induction false} EnqueueAllKeeps(s: State, names: seq<string>, lim: Limits)
    requires SubsOk(s, lim)
    ensures SubsOk(EnqueueAll(s, names, lim), lim)
  {
    if names != [] {
      EnqueueAllKeeps(s, names[..|names| - 1], lim);
      EnqueueKeeps(EnqueueAll(s, names[..|names| - 1], lim), names[|names| - 1], lim);
    }
  }

  lemma IdsMore(ths: seq<Thread>, th: Thread)
    ensures Ids(ths + [th]) == Ids(ths) + [th.id]
  {}

  lemma DistinctMore(t: seq<string>, id: string)
    requires Distinct(t) && id !in t
    ensures Distinct(t + [id])
  {}

  lemma ThreadNoted(s: State, th: Thread, lim: Limits)
    requires ThreadsOk(s, lim) && th.id != "" && th.id !in s.seenThreads && |s.seenThreads| < lim.maxThreads
    ensures ThreadsOk(s.(seenThreads := s.seenThreads + {th.id}, pending := s.pending + [th]), lim)
  {
    var s' := s.(seenThreads := s.seenThreads + {th.id}, pending := s.pending + [th]);
    IdsMore(s.pending, th);
    assert Threads(s') == Threads(s) + [th.id];
    DistinctMore(Threads(s), th.id);
    hide Threads, Ids, Distinct;
    assert |s'.seenThreads| == |s.seenThreads| + 1;
  }

  lemma AddThreadKeeps(s: State, th: Thread, lim: Limits)
    requires Bounded(s, lim)
    ensures Bounded(AddThread(s, th, lim), lim)
  {
    var s' := AddThread(s, th, lim);
    if s' != s {
      var noted := s.(seenThreads := s.seenThreads + {th.id});
      var named := if th.subreddit != "" then Enqueue(noted, th.subreddit, lim) else noted;
      EnqueueKeeps(noted, th.subreddit, lim);
      ThreadNoted(s, th, lim);
      assert s' == named.(pending := named.pending + [th]);
      SamePartsOk(s.(seenThreads := s.seenThreads + {th.id}, pending := s.pending + [th]), s, named, s', lim);
    }
  }

  /** The three parts of the invariant look at different fields. */
  lemma SamePartsOk(threads: State, movies: State, subs: State, s: State, lim: Limits)
    requires ThreadsOk(threads, lim) && MoviesOk(movies, lim) && SubsOk(subs, lim)
    requires s.seenThreads == threads.seenThreads && s.pending == threads.pending && s.scraped == threads.scraped
    requires s.seenMovies == movies.seenMovies && s.movies == movies.movies
    requires s.visited == subs.visited && s.frontier == subs.frontier
    ensures Bounded(s, lim)
  {
    hide Distinct, Ids, Keys, Crawlable;
  }

  lemma {:induction false} TakeMoviesKeeps(s: State, found: seq<Movie>, th: Thread, lim: Limits)
    requires MoviesOk(s, lim) && |s.movies| < lim.limit
    ensures MoviesOk(TakeMovies(s, found, th, lim), lim)
    decreases |found|
  {
    if found != [] {
      if Key(found[0]) in s.seenMovies {
        TakeMoviesKeeps(s, found[1..], th, lim);
      } else {
        var s' := OneMovie(s, found[0], th);
        OneMovieKeeps(s, found[0], th, lim);
        if |s'.movies| < lim.limit {
          TakeMoviesKeeps(s', found[1..], th, lim);
        }
      }
    }
  }

  function OneMovie(s: State, m: Movie, th: Thread): State {
    s.(seenMovies := s.seenMovies + {Key(m)}, movies := s.movies + [m.(source := SourceOf(th))])
  }

  lemma OneMovieKeeps(s: State, m: Movie, th: Thread, lim: Limits)
    requires MoviesOk(s, lim) && |s.movies| < lim.limit && Key(m) !in s.seenMovies
    ensures MoviesOk(OneMovie(s, m, th), lim)
  {
    var s' := OneMovie(s, m, th);
    assert Keys(s'.movies) == Keys(s.movies) + [Key(m)];
  }

  lemma ScrapeShape(s: State, page: Page, lim: Limits)
    requires MayScrape(s, lim)
    ensures Scrape(s, page, lim).pending == s.pending[1..] && Scrape(s, page, lim).visited == s.visited
    ensures Scrape(s, page, lim).seenThreads == s.seenThreads
  {
    var th := s.pending[0];
    var s1 := s.(pending := s.pending[1..], scraped := s.scraped + [th.id]);
    EnqueueAllShape(s1, page.learned, lim);
    TakeMoviesShape(EnqueueAll(s1, page.learned, lim), page.found, th, lim);
  }

  lemma {:induction false} EnqueueAllShape(s: State, names: seq<string>, lim: Limits)
    ensures EnqueueAll(s, names, lim).(frontier := s.frontier) == s
  {
    if names != [] {
      EnqueueAllShape(s, names[..|names| - 1], lim);
    }
  }

  lemma {:induction false} TakeMoviesShape(s: State, found: seq<Movie>, th: Thread, lim: Limits)
    ensures TakeMovies(s, found, th, lim).(seenMovies := s.seenMovies, movies := s.movies) == s
    decreases |found|
  {
    if found != [] {
      if Key(found[0]) in s.seenMovies {
        TakeMoviesShape(s, found[1..], th, lim);
      } else if |s.movies| + 1 < lim.limit {
        TakeMoviesShape(OneMovie(s, found[0], th), found[1..], th, lim);
      }
    }
  }

  lemma ScrapeKeeps(s: State, page: Page, lim: Limits)
    requires Bounded(s, lim) && MayScrape(s, lim)
    ensures Bounded(Scrape(s, page, lim), lim)
  {
    var th := s.pending[0];
    var s1 := s.(pending := s.pending[1..], scraped := s.scraped + [th.id]);
    assert Threads(s1) == Threads(s);
    var s2 := EnqueueAll(s1, page.learned, lim);
    EnqueueAllKeeps(s1, page.learned, lim);
    EnqueueAllShape(s1, page.learned, lim);
    TakeMoviesKeeps(s2, page.found, th, lim);
    TakeMoviesShape(s2, page.found, th, lim);
    hide EnqueueAll, TakeMovies;
  }

  lemma VisitSubs(s: State, s': State, lim: Limits)
    requires SubsOk(s, lim) && s.frontier != []
    requires s'.frontier == s.frontier[1..] && s'.visited == s.visited + {s.frontier[0]}
    ensures SubsOk(s', lim) && |s'.visited| == |s.visited| + 1
  {
    hide Crawlable;
    assert s.frontier == [s.frontier[0]] + s.frontier[1..];
    assert s.frontier[0] in s.frontier;
  }

  lemma VisitKeeps(s: State, lim: Limits)
    requires Bounded(s, lim) && MayVisit(s, lim)
    ensures Bounded(Visit(s, lim), lim)
    ensures |Visit(s, lim).visited| == |s.visited| + 1
  {
    var s' := Visit(s, lim);
    VisitSubs(s, s', lim);
    hide SubsOk;
  }

  lemma StepKeeps(s: State, e: Event, lim: Limits)
    requires Bounded(s, lim) && Possible(s, e, lim)
    ensures Bounded(Step(s, e, lim), lim)
  {
    hide Bounded;
    match e
    case Named(name) => NamedKeeps(s, name, lim);
    case Listed(th) => AddThreadKeeps(s, th, lim);
    case Scraped(page) => ScrapeKeeps(s, page, lim);
    case Visited => VisitKeeps(s, lim);
  }

  lemma NamedKeeps(s: State, name: string, lim: Limits)
    requires Bounded(s, lim)
    ensures Bounded(Enqueue(s, name, lim), lim)
  {
    EnqueueKeeps(s, name, lim);
    hide Enqueue, SubsOk;
  }

  /** Whatever the pages say: names are visited at most once and never while they wait, no
      thread is scraped twice, and the three limits hold. */
  lemma {:induction false} RunBounded(events: seq<Event>, s: State, lim: Limits)
    requires s == After(events, lim)
    ensures Bounded(s, lim)
  {
    if events != [] {
      var front, e := events[..|events| - 1], events[|events| - 1];
      var before := After(front, lim);
      RunBounded(front, before, lim);
      hide Bounded, Step, Possible;
      if Possible(before, e, lim) {
        StepKeeps(before, e, lim);
      }
    }
  }

  lemma ReachMore(events: seq<Event>, s: State, e: Event, lim: Limits)
    requires Reaches(events, s, lim) && Possible(s, e, lim)
    ensures Reaches(events + [e], Step(s, e, lim), lim)
  {
    var all := events + [e];
    assert all[..|all| - 1] == events && all[|all| - 1] == e;
    hide Step, Possible;
  }

  // ---------- what the names and keys mean ----------

  /** A written name is crawled under its own, in small letters, without prefix and spaces,
      unless it is one of the thirteen that are not to be crawled. */
  lemma NormalizeIs(name: string, before: string, n: string, after: string)
    requires Lower(name) == "r/" + (before + n + after) ||
             (Lower(name) == before + n + after && !("r/" <= Lower(name)))
    requires forall c :: c in before + after ==> c in " \t\n\r\U{B}\U{C}"
    requires n != "" ==> n[0] !in " \t\n\r\U{B}\U{C}" && n[|n| - 1] !in " \t\n\r\U{B}\U{C}"
    ensures Normalize(name) ==
            if n in ["all", "popular", "askreddit", "todayilearned", "news", "worldnews", "pics", "funny",
                     "videos", "memes", "gaming", "technology", "science"]
            then "" else n
  {
    hide TrimSpace, Lower;
    TrimAround(before, n, after);
    Unprefixed(Lower(name), before + n + after);
    BlockedAre(n);
  }

  lemma Unprefixed(s: string, rest: string)
    requires s == "r/" + rest || (s == rest && !("r/" <= s))
    ensures TrimPrefix(s, "r/") == rest
  {
  }

  lemma BlockedAre(n: string)
    ensures n in BLOCKED <==>
            n in ["all", "popular", "askreddit", "todayilearned", "news", "worldnews", "pics", "funny",
                  "videos", "memes", "gaming", "technology", "science"]
  {
  }

  /** Names that differ in capitals only are one name: the second adds nothing. */
  lemma CaseCountsOnce(s: State, a: string, b: string, lim: Limits)
    requires Lower(a) == Lower(b)
    ensures Normalize(a) == Normalize(b)
    ensures Enqueue(Enqueue(s, a, lim), b, lim) == Enqueue(s, a, lim)
  {
    hide TrimSpace, Lower;
    assert Normalize(a) == Normalize(b);
    hide Normalize;
  }

  /** The names of the repository's own test. */
  lemma TestedNames()
    ensures Normalize("r/Movies") == "movies" && Normalize("AskReddit") == ""
  {
    hide *;
    LowerMovies("r/Movies");
    LowerAsk("AskReddit");
    NormalizeIs("r/Movies", "", "movies", "");
    NormalizeIs("AskReddit", "", "askreddit", "");
  }

  lemma LowerMovies(name: string)
    requires name == "r/Movies"
    ensures Lower(name) == "r/" + ("" + "movies" + "")
  {
    assert |name| == 8;
  }

  lemma LowerAsk(name: string)
    requires name == "AskReddit"
    ensures Lower(name) == "" + "askreddit" + "" && !("r/" <= Lower(name))
  {
    assert |name| == 9 && Lower(name)[0] == 'a';
  }

  function Undecimal(s: string): int {
    if s == "" then 0 else 10 * Undecimal(s[..|s| - 1]) + (s[|s| - 1] as int - '0' as int)
  }

  lemma {:induction false} DecimalBack(n: nat)
    ensures Undecimal(Decimal(n)) == n && '|' !in Decimal(n) && Decimal(n) != ""
  {
    var digits := "0123456789";
    assert digits[n % 10] as int == '0' as int + n % 10;
    if n < 10 {
      assert Decimal(n)[..0] == "";
    } else {
      DecimalBack(n / 10);
      assert Decimal(n)[..|Decimal(n)| - 1] == Decimal(n / 10);
    }
  }

  /** The last bar of a text parts it in one way. */
  lemma LastBar(a: string, x: string, b: string, y: string)
    requires a + "|" + x == b + "|" + y && '|' !in x && '|' !in y
    ensures a == b && x == y
  {
    var s := a + "|" + x;
    assert s[|a|] == '|' && s[|b|] == '|';
    assert forall i :: |a| < i < |s| ==> s[i] == x[i - |a| - 1];
    assert forall i :: |b| < i < |s| ==> s[i] == y[i - |b| - 1];
    assert !(|a| < |b|) && !(|b| < |a|);
    assert a == s[..|a|] == b && x == s[|a| + 1..] == y;
  }

  /** Two movies have one key exactly when title and year agree, a year that is not positive
      counting as none; or when one without a year has the other's title, a bar and its year
      for a title. */
  lemma SameKeyIff(a: Movie, b: Movie)
    ensures Key(a) == Key(b) <==>
            || (a.title == b.title && (a.year == b.year || (a.year <= 0 && b.year <= 0)))
            || (a.year > 0 && b.year <= 0 && b.title == a.title + "|" + Decimal(a.year))
            || (b.year > 0 && a.year <= 0 && a.title == b.title + "|" + Decimal(b.year))
  {
    hide Decimal;
    if a.year > 0 && b.year > 0 {
      DecimalBack(a.year);
      DecimalBack(b.year);
      if Key(a) == Key(b) {
        LastBar(a.title, Decimal(a.year), b.title, Decimal(b.year));
      }
    } else if a.title == b.title && a.year == b.year {
    } else if a.year > 0 {
      DecimalBack(a.year);
      assert |Key(a)| > |a.title|;
    } else if b.year > 0 {
      DecimalBack(b.year);
      assert |Key(b)| > |b.title|;
    }
  }

  /** The last case happens. */
  lemma KeysCanMeet(a: Movie, b: Movie)
    requires a.title == "Heat" && a.year == 7 && b.title == "Heat|7" && b.year == 0
    ensures Key(a) == Key(b) && a.title != b.title
  {
    assert Decimal(7) == "7";
  }

  /** The defaults of the limits, and where a movie is said to come from. */
  lemma DefaultsAre(maxSubs: int, maxThreads: int, limit: int, th: Thread)
    ensures LimitsOf(maxSubs, maxThreads, limit).maxSubs == if maxSubs <= 0 then 20 else maxSubs
    ensures LimitsOf(maxSubs, maxThreads, limit).maxThreads == if maxThreads <= 0 then 25 else maxThreads
    ensures LimitsOf(maxSubs, maxThreads, limit).limit == limit
    ensures th.subreddit == "movies" && th.title == "Best of" ==> SourceOf(th) == "reddit (r/movies: Best of)"
    ensures th.subreddit == "" && th.title == "Best of" ==> SourceOf(th) == "reddit (Best of)"
  {
  }

  /** Movies already taken stay in front, and each new one carries its thread's source. */
  lemma {:induction false} TakeMoviesAppends(s: State, found: seq<Movie>, th: Thread, lim: Limits)
    ensures s.movies <= TakeMovies(s, found, th, lim).movies
    ensures forall i :: |s.movies| <= i < |TakeMovies(s, found, th, lim).movies| ==>
              TakeMovies(s, found, th, lim).movies[i].source == SourceOf(th)
    decreases |found|
  {
    hide Key, SourceOf;
    if found != [] {
      if Key(found[0]) in s.seenMovies {
        TakeMoviesAppends(s, found[1..], th, lim);
      } else if |s.movies| + 1 < lim.limit {
        TakeMoviesAppends(OneMovie(s, found[0], th), found[1..], th, lim);
      }
    }
  }

  /** A name not met before, with room for it. */
  predicate MayJoin(s: State, n: string, lim: Limits) {
    n != "" && n !in s.visited && n !in s.frontier && |s.visited| + |s.frontier| < lim.maxSubs
  }

  /** A new name waits behind the others, while there is room for it. */
  lemma EnqueueAppends(s: State, name: string, lim: Limits, n: string, s': State)
    requires n == Normalize(name) && s' == Enqueue(s, name, lim)
    ensures s' == if MayJoin(s, n, lim) then s.(frontier := s.frontier + [n]) else s
  {
    hide Normalize;
  }

  /** A new thread waits behind the others, and so does its subreddit. */
  lemma AddThreadQueues(s: State, th: Thread, lim: Limits, n: string, s': State)
    requires s' == AddThread(s, th, lim) && n == Normalize(th.subreddit)
    ensures th.id != "" && th.id !in s.seenThreads && |s.seenThreads| < lim.maxThreads ==>
              && s'.pending == s.pending + [th] && s'.seenThreads == s.seenThreads + {th.id}
              && s'.movies == s.movies && s'.visited == s.visited
              && s'.frontier == s.frontier + if th.subreddit != "" && MayJoin(s, n, lim) then [n] else []
    ensures th.id == "" || th.id in s.seenThreads || |s.seenThreads| >= lim.maxThreads ==> s' == s
  {
    hide Normalize;
  }
}
