/** What subscribers see over whole runs of polling rounds and prunes. */
module TiebaHistory {
  import opened Options
  import opened TiebaPosts
  import opened TiebaThreads

  /** A polling round with the fetches it led to, or a prune. */
  datatype Action = Poll(ths: seq<Thread>, fs: seq<Fetch>, now: int) | Expire(now: int)

  function Apply(t: Tracker, a: Action): Tracker
  {
    match a
    case Poll(ths, fs, now) => if |ths| == |fs| then Round(t, ths, fs, now) else t
    case Expire(now) => Prune(t, now)
  }

  function Run(t: Tracker, acts: seq<Action>): Tracker
  {
    if acts == [] then t else Apply(Run(t, acts[..|acts| - 1]), acts[|acts| - 1])
  }

  ghost predicate GoodAction(t: Tracker, a: Action)
  {
    a.Poll? ==> |a.ths| == |a.fs| && RoundFetches(t, a.ths, a.fs, a.now) && forall f <- a.fs :: PositiveIds(f)
  }

  /** Fetches answer as FetchLatestPosts does, floor ids are positive and the clock does not run backwards. */
  ghost predicate GoodRun(t: Tracker, acts: seq<Action>)
  {
    acts == [] ||
    (var init, last := acts[..|acts| - 1], acts[|acts| - 1];
     && GoodRun(t, init)
     && GoodAction(Run(t, init), last)
     && (init != [] ==> init[|init| - 1].now <= last.now))
  }

  // ---- the watermark ----

  /** No prune in log[i..j] forgot the thread. */
  ghost predicate KeptBetween(log: seq<Event>, i: nat, j: nat, tid: int)
    requires j <= |log|
  {
    forall k :: i <= k < j && log[k].Pruned? ==> tid !in log[k].tids
  }

  ghost predicate AllAtMost(pids: seq<int>, bound: int) { forall id <- pids :: id <= bound }

  ghost predicate AllBelow(a: seq<int>, b: seq<int>) { forall x <- a, y <- b :: x < y }

  ghost predicate BoundedBy(threads: map<int, Option<Entry>>, tid: int, pids: seq<int>)
  {
    tid in threads && threads[tid].Some? && AllAtMost(pids, threads[tid].value.lastPid)
  }

  /** Whatever was published for a thread since it was last forgotten lies at or below its watermark. */
  ghost predicate Watermarked(t: Tracker)
  {
    forall i :: 0 <= i < |t.log| && t.log[i].Batch? && KeptBetween(t.log, i, |t.log|, t.log[i].tid) ==>
      BoundedBy(t.threads, t.log[i].tid, t.log[i].pids)
  }

  ghost predicate CleanBatches(log: seq<Event>)
  {
    forall i :: 0 <= i < |log| && log[i].Batch? ==> Distinct(log[i].pids) && forall id <- log[i].pids :: id > 0
  }

  /** Of two batches of a thread that was not forgotten in between, the later one has only higher ids. */
  ghost predicate Increasing(log: seq<Event>)
  {
    forall i, j | 0 <= i < j < |log| && log[i].Batch? && log[j].Batch? && log[i].tid == log[j].tid
                  && KeptBetween(log, i, j, log[i].tid) :: AllBelow(log[i].pids, log[j].pids)
  }

  ghost predicate Ordered(t: Tracker) { Watermarked(t) && CleanBatches(t.log) && Increasing(t.log) }

  /** The batch a fetch leads to: distinct positive ids above the base, none above the new watermark. */
  lemma BatchFacts(t: Tracker, tid: int, base: int, f: Fetch, now: int)
    requires AboveBase(base, f) && PositiveIds(f)
    ensures var (t', maxPid) := Replies(t, tid, base, f, now);
            && maxPid >= base && t'.threads == t.threads
            && exists out :: t'.log == Sent(t.log, tid, out) && GoodBatch(out, base, maxPid)
  {
    if f.FetchError? || f.posts == [] {
      assert Sent(t.log, tid, []) == t.log && GoodBatch([], base, base);
    } else {
      DedupeIsNewFloors(t.pids, f.posts, now);
      MaxPidIsMark(base, f.posts);
      var out := Dedupe(t.pids, f.posts, now).0;
      assert GoodBatch(out, base, MaxPid(base, f.posts));
    }
  }

  ghost predicate GoodBatch(out: seq<int>, base: int, maxPid: int)
  {
    Distinct(out) && forall id <- out :: 0 < id <= maxPid && (base > 0 ==> id > base)
  }

  lemma KeptExtends(log: seq<Event>, e: Event, i: nat, j: nat, tid: int)
    requires j <= |log|
    ensures KeptBetween(log + [e], i, j, tid) <==> KeptBetween(log, i, j, tid)
    ensures KeptBetween(log + [e], i, |log| + 1, tid) && i <= |log| ==>
              KeptBetween(log, i, |log|, tid) && !(e.Pruned? && tid in e.tids)
  {
    var log' := log + [e];
    if KeptBetween(log', i, |log| + 1, tid) && i <= |log| {
      assert log'[|log|] == e;
      assert forall k :: i <= k < |log| ==> log'[k] == log[k];
    }
    assert forall k :: i <= k < j ==> log'[k] == log[k];
  }

  /** Events other than batches keep the order, if the threads they leave still carry the watermarks. */
  lemma NoteKeepsOrder(t: Tracker, e: Event)
    requires Ordered(t) && !e.Batch?
    requires e.Pruned? ==> forall tid <- e.tids :: tid in t.threads
    ensures var threads' := if e.Pruned? then t.threads - e.tids else t.threads;
            Ordered(Tracker(threads', t.pids, t.log + [e]))
  {
    var log' := t.log + [e];
    forall i, j | 0 <= i < j < |log'| && log'[i].Batch? && log'[j].Batch? && log'[i].tid == log'[j].tid
                  && KeptBetween(log', i, j, log'[i].tid)
      ensures AllBelow(log'[i].pids, log'[j].pids)
    {
      KeptExtends(t.log, e, i, j, log'[i].tid);
    }
    forall i | 0 <= i < |log'| && log'[i].Batch? && KeptBetween(log', i, |log'|, log'[i].tid)
      ensures BoundedBy(if e.Pruned? then t.threads - e.tids else t.threads, log'[i].tid, log'[i].pids)
    {
      KeptExtends(t.log, e, i, |t.log|, log'[i].tid);
    }
  }

  /** Publishing a batch above the thread's base and raising its watermark keeps the order. */
  lemma BatchKeepsOrder(t: Tracker, tid: int, base: int, out: seq<int>, entry: Entry)
    requires Ordered(t)
    requires tid in t.threads ==> t.threads[tid].Some? && t.threads[tid].value.lastPid == base
    requires GoodBatch(out, base, entry.lastPid) && entry.lastPid >= base
    ensures Ordered(Tracker(t.threads[tid := Some(entry)], t.pids, Sent(t.log, tid, out)))
  {
    var threads' := t.threads[tid := Some(entry)];
    if out == [] {
      return;
    }
    var log, e := t.log, Batch(tid, out);
    var log' := log + [e];
    forall i, j | 0 <= i < j < |log'| && log'[i].Batch? && log'[j].Batch? && log'[i].tid == log'[j].tid
                  && KeptBetween(log', i, j, log'[i].tid)
      ensures AllBelow(log'[i].pids, log'[j].pids)
    {
      KeptExtends(log, e, i, j, log'[i].tid);
      if j == |log| {
        assert BoundedBy(t.threads, tid, log[i].pids);
      }
    }
    forall i | 0 <= i < |log'| && log'[i].Batch? && KeptBetween(log', i, |log'|, log'[i].tid)
      ensures BoundedBy(threads', log'[i].tid, log'[i].pids)
    {
      if i < |log| {
        KeptExtends(log, e, i, |log|, log'[i].tid);
      }
    }
  }

  lemma HandleKeepsOrder(t: Tracker, th: Thread, f: Fetch, now: int)
    requires Ordered(t) && PositiveIds(f)
    requires var d := Decide(t, th, now); d.Process? ==> AboveBase(d.base, f)
    ensures Ordered(HandleThread(t, th, f, now))
  {
    match Decide(t, th, now) {
      case Process(isNew, base) =>
        var t1 := if isNew then t.(log := t.log + [Meta(th.tid, now)]) else t;
        if isNew {
          NoteKeepsOrder(t, Meta(th.tid, now));
        }
        BatchFacts(t1, th.tid, base, f, now);
        var (t2, maxPid) := Replies(t1, th.tid, base, f, now);
        var out :| t2.log == Sent(t1.log, th.tid, out) && GoodBatch(out, base, maxPid);
        BatchKeepsOrder(t1, th.tid, base, out, Entry(th.replyNum, now, maxPid));
      case _ =>
    }
  }

  lemma {:induction false} RoundKeepsOrder(t: Tracker, ths: seq<Thread>, fs: seq<Fetch>, now: int)
    requires |ths| == |fs| && Ordered(t) && RoundFetches(t, ths, fs, now) && forall f <- fs :: PositiveIds(f)
    ensures Ordered(Round(t, ths, fs, now))
  {
    if ths != [] {
      RoundKeepsOrder(t, ths[1..], fs[1..], now);
      HandleKeepsOrder(Round(t, ths[1..], fs[1..], now), ths[0], fs[0], now);
    }
  }

  /**
    In every run that starts with an empty log: batches have distinct ids, and until a thread is forgotten each batch
    lies wholly above all earlier ones, whether or not their ids are still in the pid set.
   */
  lemma {:induction false} PublishedIdsIncrease(t: Tracker, acts: seq<Action>)
    requires t.log == [] && GoodRun(t, acts)
    ensures Ordered(Run(t, acts))
  {
    if acts != [] {
      var init, last := acts[..|acts| - 1], acts[|acts| - 1];
      PublishedIdsIncrease(t, init);
      var u := Run(t, init);
      match last {
        case Poll(ths, fs, now) => RoundKeepsOrder(u, ths, fs, now);
        case Expire(now) =>
          var gone := set tid | tid in u.threads && Expired(u.threads[tid], now);
          NoteKeepsOrder(u, Pruned(gone));
      }
    }
  }

  /** Hence no floor is published twice for a thread that was not forgotten in between. */
  lemma NoFloorTwice(t: Tracker, acts: seq<Action>, i: nat, j: nat, id: int)
    requires t.log == [] && GoodRun(t, acts)
    requires var log := Run(t, acts).log;
             && i < j < |log| && log[i].Batch? && log[j].Batch? && log[i].tid == log[j].tid
             && KeptBetween(log, i, j, log[i].tid) && id in log[i].pids
    ensures id !in Run(t, acts).log[j].pids
  {
    PublishedIdsIncrease(t, acts);
  }

  // ---- thread announcements ----

  /** Announced threads are remembered for 72 hours after they were last processed. */
  ghost predicate Remembered(t: Tracker, now: int)
  {
    forall i :: 0 <= i < |t.log| && t.log[i].Meta? ==>
      && t.log[i].at <= now
      && if t.log[i].tid in t.threads then
           t.threads[t.log[i].tid].Some? ==> t.threads[t.log[i].tid].value.seen >= t.log[i].at
         else t.log[i].at < now - EXPIRY
  }

  ghost predicate AnnouncedApart(log: seq<Event>)
  {
    forall i, j :: 0 <= i < j < |log| && log[i].Meta? && log[j].Meta? && log[i].tid == log[j].tid ==>
      log[j].at - log[i].at > EXPIRY
  }

  lemma LaterIsFine(t: Tracker, now: int, later: int)
    requires Remembered(t, now) && now <= later
    ensures Remembered(t, later)
  {
  }

  /** A thread unknown to the state was announced too long ago to matter. */
  lemma AnnounceKeepsApart(t: Tracker, tid: int, now: int)
    requires Remembered(t, now) && AnnouncedApart(t.log) && tid !in t.threads
    ensures AnnouncedApart(t.log + [Meta(tid, now)])
  {
  }

  /** Processing a thread now remembers every announcement of it so far, batches and nothing else being added. */
  lemma EntryRemembers(t: Tracker, log': seq<Event>, tid: int, e: Entry, now: int)
    requires Remembered(t, now) && e.seen == now
    requires log' == t.log || (|log'| == |t.log| + 1 && t.log <= log' && log'[|t.log|] == Meta(tid, now))
    ensures Remembered(Tracker(t.threads[tid := Some(e)], t.pids, log'), now)
  {
  }

  lemma BatchIsNoAnnouncement(t: Tracker, pids: map<int, int>, tid: int, out: seq<int>, now: int)
    requires Remembered(t, now) && AnnouncedApart(t.log)
    ensures Remembered(Tracker(t.threads, pids, Sent(t.log, tid, out)), now) && AnnouncedApart(Sent(t.log, tid, out))
  {
  }

  lemma HandleRemembers(t: Tracker, th: Thread, f: Fetch, now: int)
    requires Remembered(t, now) && AnnouncedApart(t.log)
    ensures var t' := HandleThread(t, th, f, now); Remembered(t', now) && AnnouncedApart(t'.log)
  {
    match Decide(t, th, now) {
      case Process(isNew, base) =>
        var t1 := if isNew then t.(log := t.log + [Meta(th.tid, now)]) else t;
        if isNew {
          AnnounceKeepsApart(t, th.tid, now);
        }
        var (t2, maxPid) := Replies(t1, th.tid, base, f, now);
        var e := Entry(th.replyNum, now, maxPid);
        EntryRemembers(t, t1.log, th.tid, e, now);
        var out := if f.FetchError? then [] else Dedupe(t1.pids, f.posts, now).0;
        BatchIsNoAnnouncement(Tracker(t.threads[th.tid := Some(e)], t.pids, t1.log), t2.pids, th.tid, out, now);
      case _ =>
    }
  }

  lemma {:induction false} RoundRemembers(t: Tracker, ths: seq<Thread>, fs: seq<Fetch>, now: int)
    requires |ths| == |fs| && Remembered(t, now) && AnnouncedApart(t.log)
    ensures var t' := Round(t, ths, fs, now); Remembered(t', now) && AnnouncedApart(t'.log)
  {
    if ths != [] {
      RoundRemembers(t, ths[1..], fs[1..], now);
      HandleRemembers(Round(t, ths[1..], fs[1..], now), ths[0], fs[0], now);
    }
  }

  /** Over every run, two announcements of the same thread are more than 72 hours apart. */
  lemma {:induction false} AnnouncementsAreApart(t: Tracker, acts: seq<Action>)
    requires t.log == [] && GoodRun(t, acts)
    ensures AnnouncedApart(Run(t, acts).log)
    ensures acts != [] ==> Remembered(Run(t, acts), acts[|acts| - 1].now)
  {
    if acts != [] {
      var init, last := acts[..|acts| - 1], acts[|acts| - 1];
      AnnouncementsAreApart(t, init);
      var u := Run(t, init);
      if init != [] {
        LaterIsFine(u, init[|init| - 1].now, last.now);
      }
      if last.Poll? {
        RoundRemembers(u, last.ths, last.fs, last.now);
      }
    }
  }

  // ---- nothing is lost ----

  ghost predicate IsPublished(log: seq<Event>, id: int)
  {
    exists i :: 0 <= i < |log| && log[i].Batch? && id in log[i].pids
  }

  /** The pid set holds only floors known at the start and floors published since. */
  ghost predicate PidsArePublished(known: map<int, int>, t: Tracker)
  {
    forall id <- t.pids :: id in known || IsPublished(t.log, id)
  }

  /** A new thread was announced, and every floor fetched for a new or grown one was published or known. */
  ghost predicate Served(known: map<int, int>, t: Tracker, th: Thread, f: Fetch, now: int, log: seq<Event>)
  {
    && (IsNewThread(t, th) ==> Meta(th.tid, now) in log)
    && (IsNewThread(t, th) || HasGrown(t, th) ==>
          forall p <- PostsOf(f) :: p.id in known || IsPublished(log, p.id))
  }

  lemma PublishedGrows(log: seq<Event>, log': seq<Event>, id: int)
    requires log <= log' && IsPublished(log, id)
    ensures IsPublished(log', id)
  {
    var i :| 0 <= i < |log| && log[i].Batch? && id in log[i].pids;
    assert log'[i] == log[i];
  }

  lemma ServedGrows(known: map<int, int>, t: Tracker, th: Thread, f: Fetch, now: int, log: seq<Event>, log': seq<Event>)
    requires log <= log' && Served(known, t, th, f, now, log)
    ensures Served(known, t, th, f, now, log')
  {
    assert forall e <- log :: e in log';
    forall id | IsPublished(log, id)
      ensures IsPublished(log', id)
    {
      PublishedGrows(log, log', id);
    }
  }

  lemma HandlingServes(known: map<int, int>, t: Tracker, th: Thread, f: Fetch, now: int)
    requires PidsArePublished(known, t)
    ensures var t' := HandleThread(t, th, f, now);
            t.log <= t'.log && PidsArePublished(known, t') && Served(known, t, th, f, now, t'.log)
  {
    var t', posts := HandleThread(t, th, f, now), PostsOf(f);
    HandlingPublishes(t, th, f, now);
    if IsNewThread(t, th) || HasGrown(t, th) {
      var meta := if IsNewThread(t, th) then [Meta(th.tid, now)] else [];
      var out :| NewFloors(out, t.pids, posts)
              && t'.log == t.log + meta + (if out == [] then [] else [Batch(th.tid, out)]);
      assert meta != [] ==> meta[0] in t'.log;
      forall id | id in t.pids || HasId(posts, id)
        ensures id in known || IsPublished(t'.log, id)
      {
        if id in t.pids {
          if id !in known {
            PublishedGrows(t.log, t'.log, id);
          }
        } else {
          assert t'.log[|t'.log| - 1] == Batch(th.tid, out);
        }
      }
    }
  }

  lemma {:induction false} RoundServes(known: map<int, int>, t: Tracker, ths: seq<Thread>, fs: seq<Fetch>, now: int)
    requires |ths| == |fs| && PidsArePublished(known, t)
    ensures var t' := Round(t, ths, fs, now);
            && t.log <= t'.log && PidsArePublished(known, t')
            && forall j :: 0 <= j < |ths| ==>
                 Served(known, Round(t, ths[j + 1..], fs[j + 1..], now), ths[j], fs[j], now, t'.log)
  {
    if ths != [] {
      var u, t' := Round(t, ths[1..], fs[1..], now), Round(t, ths, fs, now);
      RoundServes(known, t, ths[1..], fs[1..], now);
      HandlingServes(known, u, ths[0], fs[0], now);
      forall j | 0 <= j < |ths|
        ensures Served(known, Round(t, ths[j + 1..], fs[j + 1..], now), ths[j], fs[j], now, t'.log)
      {
        if j > 0 {
          assert ths[1..][j..] == ths[j + 1..] && fs[1..][j..] == fs[j + 1..];
          ServedGrows(known, Round(t, ths[j + 1..], fs[j + 1..], now), ths[j], fs[j], now, u.log, t'.log);
        }
      }
    }
  }

  /** Every thread of every listing is served, as the state stands when the walk from the list's end reaches it. */
  ghost predicate AllServed(t: Tracker, acts: seq<Action>, log: seq<Event>)
  {
    forall k, j ::
      0 <= k < |acts| && acts[k].Poll? && |acts[k].ths| == |acts[k].fs| && 0 <= j < |acts[k].ths| ==>
        var a := acts[k];
        Served(t.pids, Round(Run(t, acts[..k]), a.ths[j + 1..], a.fs[j + 1..], a.now), a.ths[j], a.fs[j], a.now, log)
  }

  /** Over every run, each new thread is announced and each floor fetched is published, unless known at the start. */
  lemma {:induction false} EveryFloorIsPublished(t: Tracker, acts: seq<Action>)
    ensures t.log <= Run(t, acts).log && PidsArePublished(t.pids, Run(t, acts))
    ensures AllServed(t, acts, Run(t, acts).log)
  {
    if acts != [] {
      var init, last := acts[..|acts| - 1], acts[|acts| - 1];
      EveryFloorIsPublished(t, init);
      LastActionServes(t, acts);
      var log, log' := Run(t, init).log, Run(t, acts).log;
      forall k, j | 0 <= k < |acts| && acts[k].Poll? && |acts[k].ths| == |acts[k].fs| && 0 <= j < |acts[k].ths|
        ensures var a := acts[k];
                Served(t.pids, Round(Run(t, acts[..k]), a.ths[j + 1..], a.fs[j + 1..], a.now), a.ths[j], a.fs[j],
                       a.now, log')
      {
        if k < |init| {
          var a := acts[k];
          assert init[k] == a && init[..k] == acts[..k];
          ServedGrows(t.pids, Round(Run(t, acts[..k]), a.ths[j + 1..], a.fs[j + 1..], a.now), a.ths[j], a.fs[j],
                      a.now, log, log');
        }
      }
    }
  }

  lemma LastActionServes(t: Tracker, acts: seq<Action>)
    requires acts != [] && PidsArePublished(t.pids, Run(t, acts[..|acts| - 1]))
    ensures var u, t', a := Run(t, acts[..|acts| - 1]), Run(t, acts), acts[|acts| - 1];
            && u.log <= t'.log && PidsArePublished(t.pids, t')
            && (a.Poll? && |a.ths| == |a.fs| ==> forall j :: 0 <= j < |a.ths| ==>
                  Served(t.pids, Round(u, a.ths[j + 1..], a.fs[j + 1..], a.now), a.ths[j], a.fs[j], a.now, t'.log))
  {
    var u, t', last := Run(t, acts[..|acts| - 1]), Run(t, acts), acts[|acts| - 1];
    match last {
      case Poll(ths, fs, now) =>
        if |ths| == |fs| {
          RoundServes(t.pids, u, ths, fs, now);
        }
      case Expire(now) =>
        forall id | IsPublished(u.log, id)
          ensures IsPublished(t'.log, id)
        {
          PublishedGrows(u.log, t'.log, id);
        }
    }
  }

  // ---- the polling loop ----

  /** One forum: its listing at a time of processing and a later time of pruning, or a failed request. */
  datatype Visit = Listing(ths: seq<Thread>, now: int, later: int) | ListingFailed

  ghost predicate ClockRuns(visits: seq<Visit>, from: int)
  {
    visits == [] ||
    (if visits[0].ListingFailed? then ClockRuns(visits[1..], from)
     else from <= visits[0].now <= visits[0].later && ClockRuns(visits[1..], visits[0].later))
  }

  /** The loop's actions: a prune at the start, then for every listing a round of genuine fetches and a prune. */
  ghost predicate Follows(pages: int -> Pages, t: Tracker, start: int, visits: seq<Visit>, acts: seq<Action>)
  {
    if visits == [] then acts == [Expire(start)]
    else
      var init, last := visits[..|visits| - 1], visits[|visits| - 1];
      if last.ListingFailed? then Follows(pages, t, start, init, acts)
      else
        var n := |acts| - 2;
        && n >= 0
        && Follows(pages, t, start, init, acts[..n])
        && IsPollOf(pages, Run(t, acts[..n]), last, acts[n])
        && acts[n + 1] == Expire(last.later)
  }

  ghost predicate IsPollOf(pages: int -> Pages, t: Tracker, v: Visit, a: Action)
  {
    && v.Listing? && a.Poll? && a.ths == v.ths && a.now == v.now && |a.fs| == |a.ths|
    && RoundIsGenuine(t, a.ths, a.fs, a.now, pages)
  }

  lemma FollowsSnoc(
    pages: int -> Pages, t: Tracker, start: int, visits: seq<Visit>, acts: seq<Action>, v: Visit, a: Action)
    requires Follows(pages, t, start, visits, acts) && IsPollOf(pages, Run(t, acts), v, a)
    ensures Follows(pages, t, start, visits + [v], acts + [a] + [Expire(v.later)])
  {
    assert (visits + [v])[..|visits|] == visits;
    assert (acts + [a] + [Expire(v.later)])[..|acts|] == acts;
  }

  lemma FollowsFailure(pages: int -> Pages, t: Tracker, start: int, visits: seq<Visit>, acts: seq<Action>)
    requires Follows(pages, t, start, visits, acts)
    ensures Follows(pages, t, start, visits + [ListingFailed], acts)
  {
    assert (visits + [ListingFailed])[..|visits|] == visits;
  }

  lemma RunSnoc(t: Tracker, acts: seq<Action>, a: Action)
    requires GoodRun(t, acts) && GoodAction(Run(t, acts), a)
    requires acts != [] ==> acts[|acts| - 1].now <= a.now
    ensures GoodRun(t, acts + [a]) && Run(t, acts + [a]) == Apply(Run(t, acts), a)
  {
    assert (acts + [a])[..|acts|] == acts;
  }

  /** A visit's two actions continue the run and follow the loop. */
  lemma VisitExtends(
    pages: int -> Pages, t: Tracker, start: int, visits: seq<Visit>, acts: seq<Action>, v: Visit, a: Action)
    requires Follows(pages, t, start, visits, acts) && GoodRun(t, acts) && v.Listing? && a.now == v.now <= v.later
    requires acts != [] ==> acts[|acts| - 1].now <= v.now
    requires IsPollOf(pages, Run(t, acts), v, a) && GoodAction(Run(t, acts), a)
    ensures var acts' := acts + [a] + [Expire(v.later)];
            && Follows(pages, t, start, visits + [v], acts') && GoodRun(t, acts')
            && Run(t, acts') == Apply(Apply(Run(t, acts), a), Expire(v.later))
  {
    FollowsSnoc(pages, t, start, visits, acts, v, a);
    RunSnoc(t, acts, a);
    RunSnoc(t, acts + [a], Expire(v.later));
  }

  /** One forum's round: process the listing, then prune. */
  method VisitForum(p: Poller, ths: seq<Thread>, now: int, later: int) returns (ghost fs: seq<Fetch>)
    requires p.PagingEnds() && forall tid :: PositivePages(p.pages(tid))
    requires now <= later
    modifies p
    ensures GoodAction(old(p.Value()), Poll(ths, fs, now))
    ensures |fs| == |ths| && RoundIsGenuine(old(p.Value()), ths, fs, now, p.pages)
    ensures p.Value() == Apply(Apply(old(p.Value()), Poll(ths, fs, now)), Expire(later))
  {
    fs := p.ProcessThreads(ths, now);
    p.PruneState(later);
  }

  /** Where the loop stands after some visits: its actions so far and the time of the last one. */
  ghost predicate Stands(
    pages: int -> Pages, t: Tracker, start: int, visits: seq<Visit>, acts: seq<Action>, now: Tracker, clock: int)
  {
    && Follows(pages, t, start, visits, acts) && GoodRun(t, acts) && now == Run(t, acts)
    && (acts != [] ==> acts[|acts| - 1].now <= clock)
  }

  /** One turn of the inner loop; done are the visits before it. */
  method TakeVisit(p: Poller, v: Visit, ghost t: Tracker, ghost start: int, ghost done: seq<Visit>,
                   ghost acts: seq<Action>, ghost clock: int)
    returns (ghost acts': seq<Action>)
    requires Stands(p.pages, t, start, done, acts, p.Value(), clock)
    requires v.Listing? ==> clock <= v.now <= v.later
    requires p.PagingEnds() && forall tid :: PositivePages(p.pages(tid))
    modifies p
    ensures Stands(p.pages, t, start, done + [v], acts', p.Value(), if v.Listing? then v.later else clock)
  {
    if v.ListingFailed? {
      FollowsFailure(p.pages, t, start, done, acts);
      return acts;
    }
    ghost var fs := VisitForum(p, v.ths, v.now, v.later);
    VisitExtends(p.pages, t, start, done, acts, v, Poll(v.ths, fs, v.now));
    acts' := acts + [Poll(v.ths, fs, v.now)] + [Expire(v.later)];
  }

  /** From an empty log, whatever the server answers: ordered batches and announcements more than 72 hours apart. */
  method PollLoop(p: Poller, visits: seq<Visit>, start: int) returns (ghost acts: seq<Action>)
    requires p.log == [] && ClockRuns(visits, start)
    requires p.PagingEnds() && forall tid :: PositivePages(p.pages(tid))
    modifies p
    ensures Follows(p.pages, old(p.Value()), start, visits, acts)
    ensures p.Value() == Run(old(p.Value()), acts) && GoodRun(old(p.Value()), acts)
    ensures Ordered(p.Value()) && AnnouncedApart(p.log)
    ensures AllServed(old(p.Value()), acts, p.log)
  {
    ghost var t, clock := p.Value(), start;
    p.PruneState(start);
    RunSnoc(t, [], Expire(start));
    acts := [] + [Expire(start)];
    for i := 0 to |visits|
      invariant Stands(p.pages, t, start, visits[..i], acts, p.Value(), clock)
      invariant ClockRuns(visits[i..], clock)
    {
      assert visits[i..][1..] == visits[i + 1..];
      assert visits[..i + 1] == visits[..i] + [visits[i]];
      acts := TakeVisit(p, visits[i], t, start, visits[..i], acts, clock);
      clock := if visits[i].Listing? then visits[i].later else clock;
    }
    assert visits[..|visits|] == visits;
    PublishedIdsIncrease(t, acts);
    AnnouncementsAreApart(t, acts);
    EveryFloorIsPublished(t, acts);
  }

  // ---- entries never regress ----

  function EntryOf(t: Tracker, tid: int): Option<Entry> { if tid in t.threads then t.threads[tid] else None }

  predicate AtLeast(e': Entry, e: Entry) { e'.replyNum >= e.replyNum && e'.lastPid >= e.lastPid }

  ghost predicate NonNegative(acts: seq<Action>)
  {
    forall i :: 0 <= i < |acts| && acts[i].Poll? ==> forall th <- acts[i].ths :: th.replyNum >= 0
  }

  lemma HandleAdvances(t: Tracker, th: Thread, f: Fetch, now: int, tid: int)
    requires th.replyNum >= 0 && EntryOf(t, tid).Some?
    ensures EntryOf(HandleThread(t, th, f, now), tid).Some?
    ensures AtLeast(EntryOf(HandleThread(t, th, f, now), tid).value, EntryOf(t, tid).value)
  {
    if f.Fetched? && Decide(t, th, now).Process? {
      MaxPidIsMark(Decide(t, th, now).base, f.posts);
    }
  }

  lemma {:induction false} RoundAdvances(t: Tracker, ths: seq<Thread>, fs: seq<Fetch>, now: int, tid: int)
    requires |ths| == |fs| && EntryOf(t, tid).Some? && forall th <- ths :: th.replyNum >= 0
    ensures EntryOf(Round(t, ths, fs, now), tid).Some?
    ensures AtLeast(EntryOf(Round(t, ths, fs, now), tid).value, EntryOf(t, tid).value)
  {
    if ths != [] {
      RoundAdvances(t, ths[1..], fs[1..], now, tid);
      HandleAdvances(Round(t, ths[1..], fs[1..], now), ths[0], fs[0], now, tid);
    }
  }

  /** While no prune forgets a thread, its reply count and watermark only grow. */
  lemma {:induction false} EntryAdvances(t: Tracker, acts: seq<Action>, tid: int)
    requires EntryOf(t, tid).Some? && NonNegative(acts)
    requires forall k :: 0 <= k <= |acts| ==> EntryOf(Run(t, acts[..k]), tid).Some?
    ensures EntryOf(Run(t, acts), tid).Some?
    ensures AtLeast(EntryOf(Run(t, acts), tid).value, EntryOf(t, tid).value)
  {
    assert acts[..|acts|] == acts;
    if acts != [] {
      var init, last := acts[..|acts| - 1], acts[|acts| - 1];
      assert forall k :: 0 <= k <= |init| ==> init[..k] == acts[..k];
      EntryAdvances(t, init, tid);
      if last.Poll? && |last.ths| == |last.fs| {
        RoundAdvances(Run(t, init), last.ths, last.fs, last.now, tid);
      }
    }
  }

  ghost predicate NoNilEntries(t: Tracker) { forall tid <- t.threads :: t.threads[tid].Some? }

  lemma {:induction false} RoundKeepsEntries(t: Tracker, ths: seq<Thread>, fs: seq<Fetch>, now: int)
    requires |ths| == |fs| && NoNilEntries(t)
    ensures NoNilEntries(Round(t, ths, fs, now))
  {
    if ths != [] {
      RoundKeepsEntries(t, ths[1..], fs[1..], now);
    }
  }

  /** Loading drops nil entries and nothing brings them back, so the defensive branch for them is dead. */
  lemma {:induction false} NilEntriesNeverAppear(t: Tracker, acts: seq<Action>)
    requires NoNilEntries(t)
    ensures NoNilEntries(Run(t, acts))
  {
    if acts != [] {
      NilEntriesNeverAppear(t, acts[..|acts| - 1]);
      var last := acts[|acts| - 1];
      if last.Poll? && |last.ths| == |last.fs| {
        RoundKeepsEntries(Run(t, acts[..|acts| - 1]), last.ths, last.fs, last.now);
      }
    }
  }
}
