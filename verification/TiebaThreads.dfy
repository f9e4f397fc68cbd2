/** Incremental publishing of threads and floors: dedupe state, per-thread watermark, expiry. Times are in seconds. */
module TiebaThreads {
  import opened Options
  import opened Sets
  import opened TiebaPosts

  const EXPIRY: int := 72 * 3600
  const NEW_POST_REPLIES: nat := 5

  /** A thread as it appears in a forum listing. */
  datatype Thread = Thread(tid: int, replyNum: int, isTop: bool)

  /** lastPid is the highest floor id processed so far; a negative replyNum marks a migrated baseline. */
  datatype Entry = Entry(replyNum: int, seen: int, lastPid: int)

  datatype Fetch = FetchError | Fetched(posts: seq<Post>)

  datatype Event =
    | Meta(tid: int, at: int)
    | Batch(tid: int, pids: seq<int>)
    | Pruned(tids: set<int>)

  /** The state file's threads may hold nil entries; the published log is what subscribers have been sent. */
  datatype Tracker = Tracker(threads: map<int, Option<Entry>>, pids: map<int, int>, log: seq<Event>)

  // ---- one thread's replies ----

  predicate SeenBefore(pids: map<int, int>, id: int) { id in pids }

  /** The posts not in the pid set, first occurrences only, and the pid set with them added. */
  function Dedupe(pids: map<int, int>, posts: seq<Post>, now: int): (seq<int>, map<int, int>)
  {
    if posts == [] then ([], pids)
    else
      var last := posts[|posts| - 1].id;
      var (out, set') := Dedupe(pids, posts[..|posts| - 1], now);
      if SeenBefore(set', last) then (out, set') else (out + [last], set'[last := now])
  }

  function MaxPid(base: int, posts: seq<Post>): int
  {
    if posts == [] then base
    else
      var m, last := MaxPid(base, posts[..|posts| - 1]), posts[|posts| - 1].id;
      if last > m then last else m
  }

  function PrunePids(pids: map<int, int>, now: int): map<int, int>
  {
    map p | p in pids && pids[p] >= now - EXPIRY :: pids[p]
  }

  function Sent(log: seq<Event>, tid: int, out: seq<int>): seq<Event>
  {
    if out == [] then log else log + [Batch(tid, out)]
  }

  /** Publishes the new floors of one thread and returns the advanced watermark. */
  function Replies(t: Tracker, tid: int, base: int, f: Fetch, now: int): (Tracker, int)
  {
    if f.FetchError? || f.posts == [] then (t, base)
    else
      var (out, pids) := Dedupe(t.pids, f.posts, now);
      (Tracker(t.threads, PrunePids(pids, now), Sent(t.log, tid, out)), MaxPid(base, f.posts))
  }

  // ---- one round ----

  datatype Decision = Skip | Adopt(entry: Entry) | Process(isNew: bool, base: int)

  function Decide(t: Tracker, th: Thread, now: int): Decision
  {
    if th.isTop then Skip
    else if th.tid !in t.threads then Process(true, 0)
    else
      match t.threads[th.tid]
      case None => Adopt(Entry(th.replyNum, now, 0))
      case Some(e) =>
        if e.replyNum < 0 then Adopt(e.(replyNum := th.replyNum))
        else if th.replyNum <= e.replyNum then Skip
        else Process(false, e.lastPid)
  }

  function HandleThread(t: Tracker, th: Thread, f: Fetch, now: int): Tracker
  {
    match Decide(t, th, now)
    case Skip => t
    case Adopt(e) => t.(threads := t.threads[th.tid := Some(e)])
    case Process(isNew, base) =>
      var t1 := if isNew then t.(log := t.log + [Meta(th.tid, now)]) else t;
      var (t2, maxPid) := Replies(t1, th.tid, base, f, now);
      t2.(threads := t2.threads[th.tid := Some(Entry(th.replyNum, now, maxPid))])
  }

  /** The list is walked from its end to its front. */
  function Round(t: Tracker, ths: seq<Thread>, fs: seq<Fetch>, now: int): Tracker
    requires |ths| == |fs|
  {
    if ths == [] then t else HandleThread(Round(t, ths[1..], fs[1..], now), ths[0], fs[0], now)
  }

  predicate Expired(e: Option<Entry>, now: int) { e.Some? && e.value.seen < now - EXPIRY }

  function Prune(t: Tracker, now: int): Tracker
  {
    var gone := set tid | tid in t.threads && Expired(t.threads[tid], now);
    t.(threads := t.threads - gone, log := t.log + [Pruned(gone)])
  }

  // ---- what handling a thread publishes ----

  ghost predicate Distinct(s: seq<int>) { forall i, j :: 0 <= i < j < |s| ==> s[i] != s[j] }

  ghost predicate HasId(posts: seq<Post>, id: int) { exists p <- posts :: p.id == id }

  /** The first id occurs in front of every occurrence of the second. */
  ghost predicate Leads(posts: seq<Post>, x: int, y: int)
  {
    exists k :: 0 <= k < |posts| && posts[k].id == x && !HasId(posts[..k], y) && x != y
  }

  /** Exactly the ids of the posts that are not in the pid set, each once, in the order of the posts. */
  ghost predicate NewFloors(out: seq<int>, pids: map<int, int>, posts: seq<Post>)
  {
    && Distinct(out)
    && (forall id :: id in out <==> id !in pids && HasId(posts, id))
    && forall i, j :: 0 <= i < j < |out| ==> Leads(posts, out[i], out[j])
  }

  /** The watermark moves up to the highest id among the posts and the base. */
  ghost predicate IsMark(mark: int, base: int, posts: seq<Post>)
  {
    mark >= base && (forall p <- posts :: p.id <= mark) && (mark == base || HasId(posts, mark))
  }

  /** Fetched ids enter the pid set, and ids older than 72 hours leave it. */
  ghost predicate Remembers(pids': map<int, int>, pids: map<int, int>, posts: seq<Post>, now: int)
  {
    && (forall id :: id in pids' <==> if id in pids then pids[id] >= now - EXPIRY else HasId(posts, id))
    && forall id <- pids' :: pids'[id] == if id in pids then pids[id] else now
  }

  predicate IsNewThread(t: Tracker, th: Thread) { !th.isTop && th.tid !in t.threads }

  /** The reply count has grown above a known baseline. */
  predicate HasGrown(t: Tracker, th: Thread)
  {
    && !th.isTop && th.tid in t.threads && t.threads[th.tid].Some?
    && 0 <= t.threads[th.tid].value.replyNum < th.replyNum
  }

  function Base(t: Tracker, tid: int): int
  {
    if tid in t.threads && t.threads[tid].Some? then t.threads[tid].value.lastPid else 0
  }

  function PostsOf(f: Fetch): seq<Post> { if f.Fetched? then f.posts else [] }

  /** A new or grown thread: an announcement if it is new, and one batch of exactly its new floors, if there are any. */
  ghost predicate Publishes(t: Tracker, th: Thread, posts: seq<Post>, now: int, t': Tracker)
  {
    && (exists out ::
          && NewFloors(out, t.pids, posts)
          && t'.log == t.log + (if IsNewThread(t, th) then [Meta(th.tid, now)] else [])
                             + (if out == [] then [] else [Batch(th.tid, out)]))
    && (exists mark ::
          && IsMark(mark, Base(t, th.tid), posts)
          && t'.threads == t.threads[th.tid := Some(Entry(th.replyNum, now, mark))])
    && (if posts == [] then t'.pids == t.pids else Remembers(t'.pids, t.pids, posts, now))
  }

  /** Any other thread publishes nothing; one that is not on top and has no baseline yet is given one. */
  ghost predicate Calibrates(t: Tracker, th: Thread, now: int, t': Tracker)
  {
    && t'.log == t.log && t'.pids == t.pids
    && t'.threads ==
       if th.isTop || th.tid !in t.threads then t.threads
       else match t.threads[th.tid]
            case None => t.threads[th.tid := Some(Entry(th.replyNum, now, 0))]
            case Some(e) =>
              if e.replyNum < 0 then t.threads[th.tid := Some(Entry(th.replyNum, e.seen, e.lastPid))] else t.threads
  }

  lemma HasIdSnoc(posts: seq<Post>, id: int)
    requires posts != []
    ensures HasId(posts, id) <==> HasId(posts[..|posts| - 1], id) || posts[|posts| - 1].id == id
  {
    assert posts == posts[..|posts| - 1] + [posts[|posts| - 1]];
  }

  lemma LeadsSnoc(posts: seq<Post>, x: int, y: int)
    requires posts != []
    requires Leads(posts[..|posts| - 1], x, y)
    ensures Leads(posts, x, y)
  {
    var init := posts[..|posts| - 1];
    var k :| 0 <= k < |init| && init[k].id == x && !HasId(init[..k], y) && x != y;
    assert posts[k].id == x && posts[..k] == init[..k];
  }

  lemma LeadsNew(posts: seq<Post>, x: int, y: int)
    requires HasId(posts, x) && !HasId(posts, y)
    ensures Leads(posts, x, y)
  {
    var k :| 0 <= k < |posts| && posts[k].id == x;
    assert forall p <- posts[..k] :: p in posts;
  }

  lemma {:induction false} DedupeIsNewFloors(pids: map<int, int>, posts: seq<Post>, now: int)
    ensures var (out, set') := Dedupe(pids, posts, now);
            && NewFloors(out, pids, posts)
            && (forall id :: id in set' <==> id in pids || HasId(posts, id))
            && forall id <- set' :: set'[id] == if id in pids then pids[id] else now
  {
    if posts != [] {
      var init, last := posts[..|posts| - 1], posts[|posts| - 1].id;
      DedupeIsNewFloors(pids, init, now);
      forall id {
        HasIdSnoc(posts, id);
      }
      var (out, set') := Dedupe(pids, posts, now);
      forall i, j | 0 <= i < j < |out|
        ensures Leads(posts, out[i], out[j])
      {
        if j == |out| - 1 && out[j] == last && !HasId(init, last) {
          LeadsNew(init, out[i], last);
        }
        LeadsSnoc(posts, out[i], out[j]);
      }
    }
  }

  lemma {:induction false} MaxPidIsMark(base: int, posts: seq<Post>)
    ensures IsMark(MaxPid(base, posts), base, posts)
  {
    if posts != [] {
      MaxPidIsMark(base, posts[..|posts| - 1]);
      HasIdSnoc(posts, MaxPid(base, posts));
      assert posts == posts[..|posts| - 1] + [posts[|posts| - 1]];
    }
  }

  /** Nothing is lost on the way out: every new floor of the fetch is published, whatever the dedupe state. */
  lemma HandlingPublishes(t: Tracker, th: Thread, f: Fetch, now: int)
    ensures var t' := HandleThread(t, th, f, now);
            if IsNewThread(t, th) || HasGrown(t, th) then Publishes(t, th, PostsOf(f), now, t')
            else Calibrates(t, th, now, t')
  {
    var t' := HandleThread(t, th, f, now);
    if IsNewThread(t, th) || HasGrown(t, th) {
      var posts, base := PostsOf(f), Base(t, th.tid);
      DedupeIsNewFloors(t.pids, posts, now);
      MaxPidIsMark(base, posts);
      var out := Dedupe(t.pids, posts, now).0;
      assert t'.log == t.log + (if IsNewThread(t, th) then [Meta(th.tid, now)] else [])
                             + (if out == [] then [] else [Batch(th.tid, out)]);
      assert t'.threads == t.threads[th.tid := Some(Entry(th.replyNum, now, MaxPid(base, posts)))];
    }
  }

  // ---- the environment's side of a round ----

  /** What a fetch above a positive watermark can bring: only newer floors, as the trim guarantees. */
  predicate AboveBase(base: int, f: Fetch)
  {
    f.Fetched? && base > 0 ==> forall p <- f.posts :: p.id > base
  }

  predicate PositiveIds(f: Fetch) { f.Fetched? ==> forall p <- f.posts :: p.id > 0 }

  predicate RoundFetches(t: Tracker, ths: seq<Thread>, fs: seq<Fetch>, now: int)
    requires |ths| == |fs|
  {
    ths == [] ||
    (RoundFetches(t, ths[1..], fs[1..], now) &&
     var d := Decide(Round(t, ths[1..], fs[1..], now), ths[0], now);
     (d.Process? ==> AboveBase(d.base, fs[0])))
  }

  /** What the pages visited make of a fetch: an error on a bad id or a failed page, else the newest floors. */
  ghost predicate FetchedBy(visited: seq<int>, tid: int, base: int, pages: Pages, f: Fetch)
  {
    if tid <= 0 then f == FetchError
    else
      && IsWalk(visited, NEW_POST_REPLIES, pages)
      && var k := |visited| - 1;
         if Ask(pages, visited[k], k).PageError? then f == FetchError
         else
           && !GoesOn(visited, k, NEW_POST_REPLIES, pages)
           && f.Fetched? && LatestOf(f.posts, Collected(visited, pages), base, NEW_POST_REPLIES)
  }

  ghost predicate Genuine(tid: int, base: int, pages: Pages, f: Fetch)
  {
    exists visited :: FetchedBy(visited, tid, base, pages, f)
  }

  /** Every fetch of a round is what the forum's pages make of it. */
  ghost predicate RoundIsGenuine(t: Tracker, ths: seq<Thread>, fs: seq<Fetch>, now: int, pages: int -> Pages)
    requires |ths| == |fs|
  {
    ths == [] ||
    (RoundIsGenuine(t, ths[1..], fs[1..], now, pages) &&
     var d := Decide(Round(t, ths[1..], fs[1..], now), ths[0], now);
     (d.Process? ==> Genuine(ths[0].tid, d.base, pages(ths[0].tid), fs[0])))
  }

  class Poller {
    var threads: map<int, Option<Entry>>
    var pids: map<int, int>
    var log: seq<Event>
    /** The forum's pages: thread, page number and request number decide the answer. */
    const pages: int -> Pages

    function Value(): Tracker
      reads this
    {
      Tracker(threads, pids, log)
    }

    /** Against every thread's pages the paging loop ends. */
    ghost predicate PagingEnds() { forall tid :: tid > 0 ==> Ends(pages(tid), NEW_POST_REPLIES) }

    constructor (threads: map<int, Option<Entry>>, pages: int -> Pages)
      ensures Value() == Tracker(threads, map[], []) && this.pages == pages
    {
      this.threads, pids, log, this.pages := threads, map[], [], pages;
    }

    /** The loop over the fetched window: floors not in the pid set, and the highest id. */
    method DedupeFloors(base: int, posts: seq<Post>, now: int) returns (out: seq<int>, maxPid: int)
      modifies this`pids
      ensures maxPid == MaxPid(base, posts)
      ensures (out, pids) == Dedupe(old(pids), posts, now)
    {
      out, maxPid := [], base;
      for i := 0 to |posts|
        invariant maxPid == MaxPid(base, posts[..i])
        invariant (out, pids) == Dedupe(old(pids), posts[..i], now)
      {
        assert posts[..i + 1][..i] == posts[..i];
        var id := posts[i].id;
        if id > maxPid {
          maxPid := id;
        }
        if id in pids {
          continue;
        }
        out := out + [id];
        pids := pids[id := now];
      }
      assert posts[..|posts|] == posts;
    }

    /** Fetches, then publishes what is new. */
    method ProcessLatestPosts(tid: int, base: int, now: int) returns (out: seq<int>, maxPid: int, ghost f: Fetch)
      requires tid > 0 ==> Ends(pages(tid), NEW_POST_REPLIES)
      modifies this`pids
      ensures Genuine(tid, base, pages(tid), f) && AboveBase(base, f)
      ensures PositivePages(pages(tid)) ==> PositiveIds(f)
      ensures f.Fetched? ==> |f.posts| <= NEW_POST_REPLIES && OldestFirst(f.posts)
      ensures f.FetchError? || f.posts == [] ==> out == [] && maxPid == base && pids == old(pids)
      ensures f.Fetched? && f.posts != [] ==>
                && maxPid == MaxPid(base, f.posts)
                && out == Dedupe(old(pids), f.posts, now).0
                && pids == PrunePids(Dedupe(old(pids), f.posts, now).1, now)
    {
      var latest, visited := FetchLatestPosts(tid, base, NEW_POST_REPLIES, pages(tid));
      out, maxPid := [], base;
      f := if latest.Posts? then Fetched(latest.posts) else FetchError;
      assert FetchedBy(visited, tid, base, pages(tid), f);
      if !latest.Posts? {
        return;
      }
      var posts := latest.posts;
      if PositivePages(pages(tid)) {
        LatestArePositive(posts, visited, pages(tid), base, NEW_POST_REPLIES);
      }
      if |posts| == 0 {
        return;
      }
      out, maxPid := DedupeFloors(base, posts, now);
      PruneSeenFloors(now);
    }

    method PruneSeenFloors(now: int)
      modifies this`pids
      ensures pids == PrunePids(old(pids), now)
    {
      pids := DeleteUnless(pids, (seen: int) => seen >= now - EXPIRY);
    }

    /** One thread of the walk, and what subscribers get of it. */
    method ProcessThread(th: Thread, now: int) returns (ghost f: Fetch)
      requires th.tid > 0 ==> Ends(pages(th.tid), NEW_POST_REPLIES)
      modifies this`threads, this`pids, this`log
      ensures Value() == HandleThread(old(Value()), th, f, now)
      ensures var d := Decide(old(Value()), th, now); d.Process? ==>
                Genuine(th.tid, d.base, pages(th.tid), f) && AboveBase(d.base, f)
      ensures PositivePages(pages(th.tid)) ==> PositiveIds(f)
      ensures if IsNewThread(old(Value()), th) || HasGrown(old(Value()), th)
              then Publishes(old(Value()), th, PostsOf(f), now, Value())
              else Calibrates(old(Value()), th, now, Value())
    {
      ghost var start := Value();
      f := DecideAndPublish(th, now);
      HandlingPublishes(start, th, f, now);
    }

    /** The body of the walk. */
    method DecideAndPublish(th: Thread, now: int) returns (ghost f: Fetch)
      requires th.tid > 0 ==> Ends(pages(th.tid), NEW_POST_REPLIES)
      modifies this`threads, this`pids, this`log
      ensures Value() == HandleThread(old(Value()), th, f, now)
      ensures var d := Decide(old(Value()), th, now); d.Process? ==>
                Genuine(th.tid, d.base, pages(th.tid), f) && AboveBase(d.base, f)
      ensures PositivePages(pages(th.tid)) ==> PositiveIds(f)
    {
      f := FetchError;
      if th.isTop {
        return;
      }
      var isNew := th.tid !in threads;
      var base := 0;
      if !isNew {
        if threads[th.tid].None? {
          threads := threads[th.tid := Some(Entry(th.replyNum, now, 0))];
          return;
        }
        var prev := threads[th.tid].value;
        if prev.replyNum < 0 {
          threads := threads[th.tid := Some(prev.(replyNum := th.replyNum))];
          return;
        }
        if th.replyNum <= prev.replyNum {
          return;
        }
        base := prev.lastPid;
      } else {
        log := log + [Meta(th.tid, now)];
      }
      var out, maxPid;
      out, maxPid, f := ProcessLatestPosts(th.tid, base, now);
      if out != [] {
        log := log + [Batch(th.tid, out)];
      }
      threads := threads[th.tid := Some(Entry(th.replyNum, now, maxPid))];
    }

    method ProcessThreads(ths: seq<Thread>, now: int) returns (ghost fs: seq<Fetch>)
      requires PagingEnds()
      modifies this`threads, this`pids, this`log
      ensures |fs| == |ths|
      ensures Value() == Round(old(Value()), ths, fs, now)
      ensures RoundFetches(old(Value()), ths, fs, now) && RoundIsGenuine(old(Value()), ths, fs, now, pages)
      ensures (forall tid :: PositivePages(pages(tid))) ==> forall f <- fs :: PositiveIds(f)
    {
      fs := [];
      var i := |ths|;
      while i > 0
        invariant 0 <= i <= |ths| && |fs| == |ths| - i
        invariant Value() == Round(old(Value()), ths[i..], fs, now)
        invariant RoundFetches(old(Value()), ths[i..], fs, now)
        invariant RoundIsGenuine(old(Value()), ths[i..], fs, now, pages)
        invariant (forall tid :: PositivePages(pages(tid))) ==> forall f <- fs :: PositiveIds(f)
      {
        i := i - 1;
        var f := ProcessThread(ths[i], now);
        assert ths[i..][1..] == ths[i + 1..];
        assert ([f] + fs)[1..] == fs;
        fs := [f] + fs;
      }
      assert ths[0..] == ths;
    }

    method PruneState(now: int)
      modifies this`threads, this`log
      ensures Value() == Prune(old(Value()), now)
      ensures forall tid :: tid in threads <==> tid in old(threads) && !Expired(old(threads)[tid], now)
      ensures forall tid <- threads :: threads[tid] == old(threads)[tid]
    {
      var before := threads;
      threads := DeleteUnless(before, (e: Option<Entry>) => !(e.Some? && e.value.seen < now - EXPIRY));
      var gone := before.Keys - threads.Keys;
      assert gone == set tid | tid in before && Expired(before[tid], now);
      log := log + [Pruned(gone)];
    }
  }
}
