/** The crawl itself, step by step, over a world whose answers are arbitrary. */
module RedditCrawling {
  import opened Common
  import opened GoStrings
  import opened RedditCrawl

  datatype Reply<T> = Got(value: T) | Blocked | Failed

  /** A question to Reddit and its answer. */
  datatype Answer =
    | Names(terms: seq<string>, most: nat, names: seq<string>)
    | Global(query: string, threads: Reply<seq<Thread>>)
    | Hot(sub: string, threads: Reply<seq<Thread>>)
    | Inside(sub: string, query: string, thread: Reply<Thread>)
    | PageOf(id: string, page: Page)

  /** Reddit and the caller's context: any answer is possible at any time, except that a
      cancelled context stays cancelled. The log is what was asked and answered so far. */
  class World {
    var done: bool
    var blocked: bool
    ghost var log: seq<Answer>

    method Cancelled() returns (b: bool)
      modifies this`done
      ensures b == done && (old(done) ==> done)
    {
      if * {
        done := true;
      }
      b := done;
    }

    method ThreadPage(id: string) returns (page: Page)
      modifies this`log
      ensures log == old(log) + [PageOf(id, page)]
    {
      page := *;
      log := log + [PageOf(id, page)];
    }

    method DiscoverSubreddits(terms: seq<string>, most: nat) returns (names: seq<string>)
      modifies this`log
      ensures log == old(log) + [Names(terms, most, names)]
    {
      names := *;
      log := log + [Names(terms, most, names)];
    }

    method SearchGlobal(query: string) returns (reply: Reply<seq<Thread>>)
      modifies this`log
      ensures log == old(log) + [Global(query, reply)]
    {
      reply := *;
      log := log + [Global(query, reply)];
    }

    method ListHot(sub: string) returns (reply: Reply<seq<Thread>>)
      modifies this`log
      ensures log == old(log) + [Hot(sub, reply)]
    {
      reply := *;
      log := log + [Hot(sub, reply)];
    }

    method SearchSub(sub: string, query: string) returns (reply: Reply<Thread>)
      modifies this`log
      ensures log == old(log) + [Inside(sub, query, reply)]
    {
      reply := *;
      log := log + [Inside(sub, query, reply)];
    }
  }

  // ---------- what the answers tell the crawl ----------

  function NamedAll(names: seq<string>): seq<Event> {
    seq(|names|, i requires 0 <= i < |names| => Named(names[i]))
  }

  function ListedAll(threads: seq<Thread>): seq<Event> {
    seq(|threads|, i requires 0 <= i < |threads| => Listed(threads[i]))
  }

  /** Threads about series are not for the crawl. */
  predicate OffTopic(title: string) {
    Contains(Lower(title), "series") || Contains(Lower(title), "tv show")
  }

  function FilteredAll(threads: seq<Thread>): seq<Event> {
    if threads == [] then []
    else
      var last := threads[|threads| - 1];
      FilteredAll(threads[..|threads| - 1]) + if OffTopic(last.title) then [] else [Listed(last)]
  }

  /** The steps that follow from an answer; a subreddit is visited when its hot list is asked for. */
  function ToldBy(a: Answer): seq<Event> {
    match a
    case Names(_, _, names) => NamedAll(names)
    case Global(_, threads) => if threads.Got? then FilteredAll(threads.value) else []
    case Hot(_, threads) => [Visited] + if threads.Got? then ListedAll(threads.value) else []
    case Inside(_, _, thread) => if thread.Got? then [Listed(thread.value)] else []
    case PageOf(_, page) => [Scraped(page)]
  }

  function Told(log: seq<Answer>): seq<Event> {
    if log == [] then [] else Told(log[..|log| - 1]) + ToldBy(log[|log| - 1])
  }

  ghost predicate Extends(before: seq<Event>, after: seq<Event>, more: seq<Event>) {
    after == before + more
  }

  lemma ExtendsMore(before: seq<Event>, after: seq<Event>, more: seq<Event>, e: Event)
    requires Extends(before, after, more)
    ensures Extends(before, after + [e], more + [e])
  {
  }

  lemma ExtendsStart(before: seq<Event>, e: Event)
    ensures Extends(before, before, []) && Extends(before, before + [e], [e])
  {
  }

  lemma ExtendsOn(before: seq<Event>, e: Event, after: seq<Event>, more: seq<Event>)
    requires Extends(before + [e], after, more)
    ensures Extends(before, after, [e] + more)
  {
  }

  lemma NamedMore(names: seq<string>, i: nat)
    requires i < |names|
    ensures NamedAll(names[..i + 1]) == NamedAll(names[..i]) + [Named(names[i])]
  {
  }

  lemma NamedNone(names: seq<string>)
    ensures NamedAll(names[..0]) == [] && names[..|names|] == names
  {
  }

  lemma ListedMore(threads: seq<Thread>, i: nat)
    requires i < |threads|
    ensures ListedAll(threads[..i + 1]) == ListedAll(threads[..i]) + [Listed(threads[i])]
  {
  }

  lemma ListedNone(threads: seq<Thread>)
    ensures ListedAll(threads[..0]) == [] && FilteredAll(threads[..0]) == [] && threads[..|threads|] == threads
  {
  }

  lemma FilteredMore(threads: seq<Thread>, i: nat)
    requires i < |threads|
    ensures FilteredAll(threads[..i + 1]) ==
            FilteredAll(threads[..i]) + if OffTopic(threads[i].title) then [] else [Listed(threads[i])]
    ensures OffTopic(threads[i].title) ==> FilteredAll(threads[..i + 1]) == FilteredAll(threads[..i])
  {
    hide OffTopic;
    assert threads[..i + 1][..i] == threads[..i];
  }

  /** Listed are exactly the threads whose titles mention neither series nor TV shows. */
  lemma {:induction false} FilteredIff(threads: seq<Thread>, e: Event)
    ensures e in FilteredAll(threads) <==>
            e.Listed? && e.th in threads &&
            !Contains(Lower(e.th.title), "series") && !Contains(Lower(e.th.title), "tv show")
  {
    hide Contains, Lower;
    if threads != [] {
      var front, last := threads[..|threads| - 1], threads[|threads| - 1];
      FilteredIff(front, e);
      assert forall th :: th in threads <==> th in front || th == last;
    }
  }

  /** The steps so far are those for the names given and the answers logged. */
  ghost predicate Tells(given: seq<string>, log: seq<Answer>, events: seq<Event>) {
    events == NamedAll(given) + Told(log)
  }

  lemma TellsStart(given: seq<string>, events: seq<Event>)
    requires Extends([], events, NamedAll(given))
    ensures Tells(given, [], events)
  {
  }

  lemma TellsMore(given: seq<string>, log: seq<Answer>, before: seq<Event>, a: Answer, after: seq<Event>)
    requires Tells(given, log, before) && Extends(before, after, ToldBy(a))
    ensures Tells(given, log + [a], after)
  {
    hide NamedAll, ToldBy;
    assert (log + [a])[..|log|] == log;
  }

  /** The steps for an answer, case by case. */
  lemma TellsBy(a: Answer)
    ensures a.Names? ==> ToldBy(a) == NamedAll(a.names)
    ensures a.Global? && a.threads.Got? ==> ToldBy(a) == FilteredAll(a.threads.value)
    ensures a.Global? && !a.threads.Got? ==> ToldBy(a) == []
    ensures a.Hot? && a.threads.Got? ==> ToldBy(a) == [Visited] + ListedAll(a.threads.value)
    ensures a.Hot? && !a.threads.Got? ==> ToldBy(a) == [Visited]
    ensures a.Inside? ==> ToldBy(a) == if a.thread.Got? then [Listed(a.thread.value)] else []
    ensures a.PageOf? ==> ToldBy(a) == [Scraped(a.page)]
  {
    hide NamedAll, ListedAll, FilteredAll;
  }

  function SearchTerms(queries: seq<string>): seq<string> {
    queries + seq(|queries|, i requires 0 <= i < |queries| => queries[i] + " movies")
  }

  // ---------- what was asked ----------

  ghost predicate AskedGlobally(log: seq<Answer>, query: string) {
    exists i :: 0 <= i < |log| && log[i].Global? && log[i].query == query
  }

  ghost predicate AskedInside(log: seq<Answer>, sub: string, query: string) {
    exists i :: 0 <= i < |log| && log[i].Inside? && log[i].sub == sub && log[i].query == query
  }

  ghost predicate SearchedInside(log: seq<Answer>, sub: string, queries: seq<string>) {
    forall q :: q in queries ==> AskedInside(log, sub, q)
  }

  lemma AskedStays(log: seq<Answer>, log': seq<Answer>)
    requires log <= log'
    ensures forall q :: AskedGlobally(log, q) ==> AskedGlobally(log', q)
    ensures forall sub, q :: AskedInside(log, sub, q) ==> AskedInside(log', sub, q)
    ensures forall sub, queries :: SearchedInside(log, sub, queries) ==> SearchedInside(log', sub, queries)
  {
    forall q | AskedGlobally(log, q) ensures AskedGlobally(log', q) {
      var i :| 0 <= i < |log| && log[i].Global? && log[i].query == q;
      assert log'[i] == log[i];
    }
    forall sub, q | AskedInside(log, sub, q) ensures AskedInside(log', sub, q) {
      var i :| 0 <= i < |log| && log[i].Inside? && log[i].sub == sub && log[i].query == q;
      assert log'[i] == log[i];
    }
  }

  lemma AskedLast(log: seq<Answer>, a: Answer)
    ensures a.Global? ==> AskedGlobally(log + [a], a.query)
    ensures a.Inside? ==> AskedInside(log + [a], a.sub, a.query)
  {
    assert (log + [a])[|log|] == a;
  }

  predicate Contains(s: string, sub: string) {
    exists i :: 0 <= i <= |s| && OccursAt(s, sub, i)
  }

  class Crawler {
    const lim: Limits
    const world: World
    var visited: set<string>
    var seenThreads: set<string>
    var seenMovies: set<string>
    var frontier: seq<string>
    var pending: seq<Thread>
    var movies: seq<Movie>
    ghost var scraped: seq<string>
    ghost var events: seq<Event>
    ghost var given: seq<string>

    ghost function S(): State
      reads this
    {
      State(visited, frontier, seenThreads, pending, scraped, seenMovies, movies)
    }

    /** The variables are where the recorded steps lead. */
    ghost predicate Sound()
      reads this
    {
      Reaches(events, S(), lim)
    }

    /** And the steps are those that the given names and the answers call for, in order. */
    ghost predicate Valid()
      reads this, world
    {
      Sound() && Tells(given, world.log, events)
    }

    /** Nothing is left to scrape, or scraping may not go on. */
    ghost predicate Drained()
      reads this, world
    {
      pending == [] || |movies| >= lim.limit || world.done
    }

    constructor (maxSubreddits: int, maxThreads: int, limit: int, world: World)
      requires world.log == []
      ensures Valid() && S() == START && given == [] && this.world == world
      ensures lim == LimitsOf(maxSubreddits, maxThreads, limit)
    {
      lim := LimitsOf(maxSubreddits, maxThreads, limit);
      this.world := world;
      visited, seenThreads, seenMovies, frontier, pending, movies := {}, {}, {}, [], [], [];
      scraped, events, given := [], [], [];
      new;
      TellsStart([], []);
    }

    method EnqueueSub(name: string)
      modifies this`frontier
      ensures S() == Enqueue(old(S()), name, lim)
    {
      hide Normalize;
      var sub := Normalize(name);
      if sub == "" || sub in visited {
        return;
      }
      for i := 0 to |frontier|
        invariant sub !in frontier[..i]
      {
        if frontier[i] == sub {
          return;
        }
      }
      if |visited| + |frontier| >= lim.maxSubs {
        return;
      }
      frontier := frontier + [sub];
    }

    method AddThread(th: Thread)
      modifies this`frontier, this`seenThreads, this`pending
      ensures S() == RedditCrawl.AddThread(old(S()), th, lim)
    {
      if th.id == "" || th.id in seenThreads {
        return;
      }
      if |seenThreads| >= lim.maxThreads {
        return;
      }
      seenThreads := seenThreads + {th.id};
      if th.subreddit != "" {
        EnqueueSub(th.subreddit);
      }
      pending := pending + [th];
    }

    // The same two, recorded as steps.

    method Name(name: string)
      requires Sound()
      modifies this`frontier, this`events
      ensures Sound() && events == old(events) + [Named(name)]
    {
      ReachMore(events, S(), Named(name), lim);
      EnqueueSub(name);
      events := events + [Named(name)];
    }

    method NameAll(names: seq<string>)
      requires Sound()
      modifies this`frontier, this`events
      ensures Sound() && Extends(old(events), events, NamedAll(names))
    {
      NamedNone(names);
      ExtendsStart(events, Visited);
      hide Reaches, Extends, NamedAll;
      for i := 0 to |names|
        invariant Sound() && Extends(old(events), events, NamedAll(names[..i]))
      {
        ExtendsMore(old(events), events, NamedAll(names[..i]), Named(names[i]));
        NamedMore(names, i);
        Name(names[i]);
      }
    }

    method List(th: Thread)
      requires Sound()
      modifies this`frontier, this`seenThreads, this`pending, this`events
      ensures Sound() && events == old(events) + [Listed(th)]
      ensures |old(seenThreads)| <= |seenThreads|
    {
      ReachMore(events, S(), Listed(th), lim);
      AddThread(th);
      events := events + [Listed(th)];
    }

    /** One turn of the scraping loop: it asks for the page of the thread that waits longest. */
    method ScrapeNext() returns (ghost page: Page)
      requires MayScrape(S(), lim)
      modifies this`pending, this`scraped, this`frontier, this`seenMovies, this`movies, world`log
      ensures S() == Scrape(old(S()), page, lim)
      ensures world.log == old(world.log) + [PageOf(old(pending)[0].id, page)]
    {
      var th := pending[0];
      pending := pending[1..];
      scraped := scraped + [th.id];
      var answer := world.ThreadPage(th.id);
      page := answer;
      LearnAll(answer.learned);
      KeepAll(answer.found, th);
    }

    method LearnAll(learned: seq<string>)
      modifies this`frontier
      ensures S() == EnqueueAll(old(S()), learned, lim)
    {
      ghost var s := S();
      for i := 0 to |learned|
        invariant S() == EnqueueAll(s, learned[..i], lim)
      {
        assert learned[..i + 1][..i] == learned[..i];
        EnqueueSub(learned[i]);
      }
      assert learned[..|learned|] == learned;
    }

    method KeepAll(found: seq<Movie>, th: Thread)
      requires |movies| < lim.limit
      modifies this`seenMovies, this`movies
      ensures S() == TakeMovies(old(S()), found, th, lim)
    {
      ghost var s := S();
      assert found[0..] == found;
      for i := 0 to |found|
        invariant |movies| < lim.limit
        invariant TakeMovies(S(), found[i..], th, lim) == TakeMovies(s, found, th, lim)
      {
        assert found[i..][0] == found[i] && found[i..][1..] == found[i + 1..];
        var m := found[i];
        var key := Key(m);
        if key in seenMovies {
          continue;
        }
        seenMovies := seenMovies + {key};
        movies := movies + [m.(source := SourceOf(th))];
        if |movies| >= lim.limit {
          return;
        }
      }
    }

    method ScrapePending()
      requires Valid()
      modifies this, world`done, world`log
      ensures Valid() && Drained() && visited == old(visited) && seenThreads == old(seenThreads) && given == old(given)
      ensures !old(MayScrape(S(), lim)) ==> S() == old(S())
      ensures (old(world.done) ==> world.done) && old(world.log) <= world.log
    {
      hide Reaches, Extends, Tells, ToldBy, Scrape;
      while |pending| > 0 && |movies| < lim.limit
        invariant Valid() && visited == old(visited) && seenThreads == old(seenThreads) && given == old(given)
        invariant !old(MayScrape(S(), lim)) ==> S() == old(S())
        invariant (old(world.done) ==> world.done) && old(world.log) <= world.log
        decreases |pending|
      {
        var cancelled := world.Cancelled();
        if cancelled {
          return;
        }
        ghost var before, log, earlier := S(), world.log, events;
        ghost var page := ScrapeNext();
        ReachMore(events, before, Scraped(page), lim);
        ScrapeShape(before, page, lim);
        events := events + [Scraped(page)];
        ghost var a := PageOf(before.pending[0].id, page);
        TellsBy(a);
        ExtendsStart(earlier, Scraped(page));
        TellsMore(given, log, earlier, a, events);
      }
    }

    /** The global searches; the answer says whether Reddit refused one. Every query is asked
        for, unless Reddit refuses or the caller cancels. */
    method SearchAll(queries: seq<string>) returns (refused: bool)
      requires Valid()
      modifies this`frontier, this`seenThreads, this`pending, this`events, world
      ensures Valid() && (old(world.done) ==> world.done) && old(world.log) <= world.log
      ensures world.blocked == (old(world.blocked) || refused)
      ensures !refused && !world.done ==> forall q :: q in queries ==> AskedGlobally(world.log, q)
    {
      hide Reaches, Extends, Tells, ToldBy, FilteredAll, AskedGlobally, AskedInside, SearchedInside;
      for i := 0 to |queries|
        invariant Valid() && (old(world.done) ==> world.done) && old(world.log) <= world.log
        invariant world.blocked == old(world.blocked)
        invariant forall k :: 0 <= k < i ==> AskedGlobally(world.log, queries[k])
      {
        var cancelled := world.Cancelled();
        if cancelled {
          break;
        }
        ghost var log, earlier := world.log, events;
        var reply := world.SearchGlobal(queries[i]);
        ghost var a := Global(queries[i], reply);
        TellsBy(a);
        AskedStays(log, world.log);
        AskedLast(log, a);
        ExtendsStart(earlier, Visited);
        match reply {
          case Blocked =>
            world.blocked := true;
            TellsMore(given, log, earlier, a, events);
            return true;
          case Failed =>
          case Got(found) =>
            ListFiltered(found);
        }
        TellsMore(given, log, earlier, a, events);
      }
      return false;
    }

    /** Titles about series are left out. */
    method ListFiltered(found: seq<Thread>)
      requires Sound()
      modifies this`frontier, this`seenThreads, this`pending, this`events
      ensures Sound() && Extends(old(events), events, FilteredAll(found))
    {
      ListedNone(found);
      ExtendsStart(events, Visited);
      hide Contains, Lower, Reaches, Extends, FilteredAll;
      for i := 0 to |found|
        invariant Sound() && Extends(old(events), events, FilteredAll(found[..i]))
      {
        FilteredMore(found, i);
        var title := Lower(found[i].title);
        if Contains(title, "series") || Contains(title, "tv show") {
          continue;
        }
        ExtendsMore(old(events), events, FilteredAll(found[..i]), Listed(found[i]));
        List(found[i]);
      }
    }

    method ListAll(found: seq<Thread>)
      requires Sound()
      modifies this`frontier, this`seenThreads, this`pending, this`events
      ensures Sound() && Extends(old(events), events, ListedAll(found))
      ensures |old(seenThreads)| <= |seenThreads|
    {
      ListedNone(found);
      ExtendsStart(events, Visited);
      hide Reaches, Extends, ListedAll;
      for i := 0 to |found|
        invariant Sound() && Extends(old(events), events, ListedAll(found[..i]))
        invariant |old(seenThreads)| <= |seenThreads|
      {
        ListedMore(found, i);
        ExtendsMore(old(events), events, ListedAll(found[..i]), Listed(found[i]));
        List(found[i]);
      }
    }

    /** The searches inside one subreddit: all queries, unless something stops them. */
    method SearchInside(sub: string, queries: seq<string>)
      requires Valid()
      modifies this`frontier, this`seenThreads, this`pending, this`events, world
      ensures Valid() && (old(world.done) ==> world.done) && old(world.log) <= world.log
      ensures old(world.blocked) ==> world.blocked
      ensures |old(seenThreads)| <= |seenThreads|
      ensures world.done || world.blocked || |seenThreads| >= lim.maxThreads ||
              SearchedInside(world.log, sub, queries)
    {
      hide Reaches, Extends, Tells, ToldBy, AskedGlobally, AskedInside;
      for i := 0 to |queries|
        invariant Valid() && (old(world.done) ==> world.done) && old(world.log) <= world.log
        invariant old(world.blocked) ==> world.blocked
        invariant |old(seenThreads)| <= |seenThreads|
        invariant forall k :: 0 <= k < i ==> AskedInside(world.log, sub, queries[k])
      {
        var cancelled := world.Cancelled();
        if cancelled || |seenThreads| >= lim.maxThreads {
          break;
        }
        ghost var log, earlier := world.log, events;
        var reply := world.SearchSub(sub, queries[i]);
        ghost var a := Inside(sub, queries[i], reply);
        TellsBy(a);
        AskedStays(log, world.log);
        AskedLast(log, a);
        ExtendsStart(earlier, if reply.Got? then Listed(reply.value) else Visited);
        match reply {
          case Blocked =>
            world.blocked := true;
            TellsMore(given, log, earlier, a, events);
            break;
          case Failed =>
          case Got(th) =>
            List(th);
        }
        TellsMore(given, log, earlier, a, events);
      }
    }

    /** Takes the next name from the frontier and marks it visited. */
    method VisitNext() returns (sub: string)
      requires Sound() && MayVisit(S(), lim)
      modifies this`frontier, this`visited, this`events
      ensures Sound() && events == old(events) + [Visited] && S() == Visit(old(S()), lim)
      ensures |visited| == old(|visited|) + 1 && sub == old(frontier)[0]
    {
      VisitFacts(events, S(), lim);
      hide Reaches;
      sub := frontier[0];
      frontier := frontier[1..];
      if sub in visited {
        assert false;
      }
      visited := visited + {sub};
      events := events + [Visited];
    }

    /** One turn of the main loop: the subreddit that waits longest is visited, its hot list
        is asked for, and then everything inside it, unless something stops that. */
    method CrawlNext(queries: seq<string>) returns (refused: bool)
      requires Valid() && MayVisit(S(), lim)
      modifies this, world
      ensures Valid() && (old(world.done) ==> world.done) && given == old(given)
      ensures visited == old(visited) + {old(frontier)[0]} && |visited| == old(|visited|) + 1
      ensures if refused then world.blocked else Drained()
      ensures old(world.blocked) ==> world.blocked
      ensures |old(seenThreads)| <= |seenThreads|
      ensures |world.log| > |old(world.log)| && old(world.log) <= world.log
      ensures world.log[|old(world.log)|].Hot? && world.log[|old(world.log)|].sub == old(frontier)[0]
      ensures world.done || world.blocked || |seenThreads| >= lim.maxThreads ||
              SearchedInside(world.log, old(frontier)[0], queries)
    {
      hide Reaches, Extends, Tells, ToldBy, ListedAll, SearchedInside, AskedGlobally, AskedInside;
      ghost var earlier := events;
      var sub := VisitNext();
      ghost var log := world.log;
      var hot := world.ListHot(sub);
      ghost var a := Hot(sub, hot);
      TellsBy(a);
      ExtendsStart(earlier, Visited);
      match hot {
        case Got(ths) =>
          ListAll(ths);
          ExtendsOn(earlier, Visited, events, ListedAll(ths));
        case Blocked =>
          world.blocked := true;
          TellsMore(given, log, earlier, a, events);
          return true;
        case Failed =>
      }
      TellsMore(given, log, earlier, a, events);
      SearchInside(sub, queries);
      log := world.log;
      ScrapePending();
      AskedStays(log, world.log);
      return false;
    }

    /** Every visited subreddit was searched for every query, unless something stopped that. */
    ghost predicate SearchedAll(queries: seq<string>)
      reads this, world
    {
      world.done || world.blocked || |seenThreads| >= lim.maxThreads ||
      forall n :: n in visited ==> SearchedInside(world.log, n, queries)
    }

    /** The main loop: it stops for one of the four stated reasons. */
    method CrawlFrontier(queries: seq<string>)
      requires Valid() && Drained() && SearchedAll(queries)
      modifies this, world
      ensures Valid() && (old(world.done) ==> world.done) && (old(world.blocked) ==> world.blocked)
      ensures old(world.log) <= world.log && given == old(given) && SearchedAll(queries)
      ensures world.done || world.blocked || |movies| >= lim.limit || (frontier == [] && pending == [])
    {
      hide Reaches, SearchedInside, Tells, AskedGlobally, AskedInside;
      Finish();
      while |frontier| > 0 && |movies| < lim.limit
        invariant Valid() && Drained() && |visited| <= lim.maxSubs && given == old(given)
        invariant (old(world.done) ==> world.done) && (old(world.blocked) ==> world.blocked)
        invariant old(world.log) <= world.log && SearchedAll(queries)
        decreases lim.maxSubs - |visited|
      {
        var cancelled := world.Cancelled();
        if cancelled {
          break;
        }
        ghost var log := world.log;
        var refused := CrawlNext(queries);
        AskedStays(log, world.log);
        if refused {
          break;
        }
        Finish();
      }
    }

    /** The crawl ends, its steps are those that its names and the answers call for, and its
        result keeps the limits. If neither the context nor Reddit stopped it, every query was
        asked for everywhere it should be; and if the number of movies did not stop it either,
        nothing it learned of was left out. */
    method Discover(subreddits: seq<string>, queries: seq<string>) returns (result: seq<Movie>)
      requires Valid() && S() == START && events == [] && world.log == []
      modifies this, world
      ensures Sound() && Bounded(S(), lim) && result == movies
      ensures Tells(subreddits, world.log, events)
      ensures |result| <= (if lim.limit > 0 then lim.limit else 0) && Distinct(Keys(result))
      ensures |world.log| > 0 && world.log[0].Names?
      ensures world.log[0].terms == SearchTerms(queries) && world.log[0].most == lim.maxSubs
      ensures !world.done && !world.blocked ==> forall q :: q in queries ==> AskedGlobally(world.log, q)
      ensures !world.done && !world.blocked && |seenThreads| < lim.maxThreads ==>
              forall n :: n in visited ==> SearchedInside(world.log, n, queries)
      ensures !world.done && !world.blocked && |result| < lim.limit ==>
              frontier == [] && pending == [] && seenThreads == set id | id in scraped
    {
      hide Reaches, SearchedInside, Tells, Extends, ToldBy, NamedAll, SearchTerms, AskedGlobally, AskedInside;
      NameAll(subreddits);
      given := subreddits;
      TellsStart(subreddits, events);
      ghost var earlier := events;
      var names := world.DiscoverSubreddits(SearchTerms(queries), lim.maxSubs);
      ghost var a := Names(SearchTerms(queries), lim.maxSubs, names);
      TellsBy(a);
      NameAll(names);
      TellsMore(given, [], earlier, a, events);
      var refused := SearchAll(queries);
      ghost var searched := world.log;
      ScrapePending();
      AskedStays(searched, world.log);
      if refused {
        Finish();
        return movies;
      }
      CrawlFrontier(queries);
      ghost var crawled := world.log;
      ScrapePending();
      AskedStays(searched, world.log);
      AskedStays(crawled, world.log);
      Finish();
      return movies;
    }

    lemma Finish()
      requires Sound()
      ensures Bounded(S(), lim) && |visited| <= lim.maxSubs
      ensures pending == [] ==> seenThreads == set id | id in scraped
    {
      RunBounded(events, S(), lim);
      hide Distinct;
      if pending == [] {
        assert Threads(S()) == scraped;
      }
    }
  }

  /** The next name was not visited before. */
  lemma VisitFacts(events: seq<Event>, s: State, lim: Limits)
    requires Reaches(events, s, lim) && MayVisit(s, lim)
    ensures s.frontier[0] !in s.visited && |Visit(s, lim).visited| == |s.visited| + 1
    ensures Reaches(events + [Visited], Visit(s, lim), lim)
  {
    ReachMore(events, s, Visited, lim);
    RunBounded(events, s, lim);
    hide Reaches;
    VisitKeeps(s, lim);
    assert s.frontier[0] in s.frontier;
  }
}
