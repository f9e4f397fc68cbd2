/** The bounded "seen" window of the chat stream and the emission it guards. */
module Lounge {
  import opened Sets

  /** Ids further than this behind the newest one are forgotten once the window is full. */
  const SEEN_KEEP_WINDOW: int := 50000

  datatype Window = Window(ids: set<int>, maxId: int)

  const EMPTY: Window := Window({}, 0)

  function Max(a: int, b: int): int { if a < b then b else a }

  function Evict(w: Window): Window
  {
    if |w.ids| > SEEN_KEEP_WINDOW then
      w.(ids := set k | k in w.ids && k >= w.maxId - SEEN_KEEP_WINDOW)
    else w
  }

  function Mark(w: Window, id: int): Window
  {
    if id in w.ids then w else Evict(Window(w.ids + {id}, Max(w.maxId, id)))
  }

  class SeenIds {
    var seen: set<int>
    var maxSeen: int

    function Value(): Window
      reads this
    {
      Window(seen, maxSeen)
    }

    constructor ()
      ensures Value() == EMPTY
    {
      seen, maxSeen := {}, 0;
    }

    method MarkSeen(id: int) returns (isNew: bool)
      modifies this
      ensures isNew <==> id !in old(seen)
      ensures Value() == Mark(old(Value()), id)
      ensures !isNew ==> seen == old(seen) && maxSeen == old(maxSeen)
      ensures isNew ==>
                var grown := old(seen) + {id};
                && maxSeen == (if id > old(maxSeen) then id else old(maxSeen))
                && seen == if |grown| <= 50000 then grown else set k | k in grown && k >= maxSeen - 50000
    {
      if id in seen {
        return false;
      }
      seen := seen + {id};
      if id > maxSeen {
        maxSeen := id;
      }
      if |seen| > SEEN_KEEP_WINDOW {
        var floor := maxSeen - SEEN_KEEP_WINDOW;
        ghost var full := seen;
        var rest := seen;
        while rest != {}
          invariant rest <= full
          invariant seen == set k | k in full && (k in rest || k >= floor)
          invariant maxSeen == Max(old(maxSeen), id)
          decreases rest
        {
          var k := TakeAny(rest);
          rest := rest - {k};
          if k < floor {
            seen := seen - {k};
          }
        }
      }
      isNew := true;
    }

    /** What reaches the publisher: own messages never, messages without an id always, others once. */
    method Emit(self: bool, id: int, out: Outbox)
      modifies this, out
      ensures self ==> out.ids == old(out.ids) && Value() == old(Value())
      ensures !self && id == 0 ==> out.ids == old(out.ids) + [0] && Value() == old(Value())
      ensures !self && id != 0 ==> Value() == Mark(old(Value()), id)
      ensures !self && id != 0 ==>
                out.ids == if id in old(seen) then old(out.ids) else old(out.ids) + [id]
    {
      if self {
        return;
      }
      if id != 0 {
        var isNew := MarkSeen(id);
        if !isNew {
          return;
        }
      }
      out.ids := out.ids + [id];
    }
  }

  class Outbox {
    var ids: seq<int>
  }

  // ---- whole runs ----

  /** The window after a stream of ids. */
  function Run(ids: seq<int>): Window
  {
    if ids == [] then EMPTY else Mark(Run(ids[..|ids| - 1]), ids[|ids| - 1])
  }

  /** The newest id presented, counting from zero. */
  function Newest(ids: seq<int>): int
  {
    if ids == [] then 0 else Max(Newest(ids[..|ids| - 1]), ids[|ids| - 1])
  }

  lemma {:induction false} NewestBounds(ids: seq<int>)
    ensures forall i :: 0 <= i < |ids| ==> ids[i] <= Newest(ids)
    ensures 0 <= Newest(ids)
  {
    if ids != [] {
      NewestBounds(ids[..|ids| - 1]);
    }
  }

  function IdsOf(ids: seq<int>): set<int> { set k | k in ids }

  /** Until the stream has brought more than 50000 different ids, nothing at all is forgotten. */
  lemma {:induction false} NothingForgotten(ids: seq<int>)
    requires |IdsOf(ids)| <= 50000
    ensures Run(ids).ids == IdsOf(ids)
  {
    if ids != [] {
      var init, last := ids[..|ids| - 1], ids[|ids| - 1];
      var before, all := IdsOf(init), IdsOf(ids);
      assert ids == init + [last];
      assert all == before + {last};
      SubsetIsSmaller(before, all);
      NothingForgotten(init);
    }
  }

  lemma SubsetIsSmaller(a: set<int>, b: set<int>)
    requires a <= b
    ensures |a| <= |b|
  {
    assert b == a + (b - a);
  }

  /** The window holds only ids that were presented, and every one of them that is recent enough. */
  lemma {:induction false} RunInvariant(ids: seq<int>)
    ensures Run(ids).maxId == Newest(ids)
    ensures forall k <- Run(ids).ids :: k in ids
    ensures forall k <- ids :: k >= Newest(ids) - SEEN_KEEP_WINDOW ==> k in Run(ids).ids
    ensures |Run(ids).ids| <= SEEN_KEEP_WINDOW + 1
  {
    NewestBounds(ids);
    if ids != [] {
      var init, last := ids[..|ids| - 1], ids[|ids| - 1];
      RunInvariant(init);
      assert ids == init + [last];
      var w := Run(init);
      if last !in w.ids {
        var grown := Window(w.ids + {last}, Max(w.maxId, last));
        assert forall k <- grown.ids :: k in ids;
        if |grown.ids| > SEEN_KEEP_WINDOW {
          IntervalSize(Evict(grown).ids, grown.maxId - SEEN_KEEP_WINDOW, grown.maxId);
        }
      } else {
        NewestBounds(init);
      }
    }
  }

  /**
    The bounded window refines an unbounded set: after any stream at all, an id no further back than the window is
    answered exactly as "has it ever been presented" would be; and an answer "seen" is never wrong.
   */
  lemma AnswersLikeUnboundedSet(ids: seq<int>, id: int)
    ensures id >= Newest(ids) - SEEN_KEEP_WINDOW ==> (id in Run(ids).ids <==> id in ids)
    ensures id in Run(ids).ids ==> id in ids
  {
    RunInvariant(ids);
  }

  /** The same stream in front of an unbounded set. */
  function FirstOccurrences(ids: seq<int>): seq<int>
  {
    if ids == [] then []
    else
      var init, last := ids[..|ids| - 1], ids[|ids| - 1];
      FirstOccurrences(init) + if last in init then [] else [last]
  }

  /** No id is repeated once it lies further than the window behind the newest; fresh ids may lie anywhere. */
  ghost predicate NoLateRepeats(ids: seq<int>)
  {
    forall i :: 0 <= i < |ids| ==> InTime(ids[..i], ids[i])
  }

  predicate InTime(before: seq<int>, id: int) { id in before ==> id >= Newest(before) - SEEN_KEEP_WINDOW }

  /** No id occurs twice among first occurrences, and none is missing. */
  lemma {:induction false} FirstOccurrencesAreDistinct(ids: seq<int>)
    ensures forall i, j :: 0 <= i < j < |FirstOccurrences(ids)| ==> FirstOccurrences(ids)[i] != FirstOccurrences(ids)[j]
    ensures forall k :: k in FirstOccurrences(ids) <==> k in ids
  {
    if ids != [] {
      var init, last := ids[..|ids| - 1], ids[|ids| - 1];
      FirstOccurrencesAreDistinct(init);
      assert ids == init + [last];
      assert last in init ==> FirstOccurrences(ids) == FirstOccurrences(init);
    }
  }

  // ---- streams of messages ----

  /** A message as it reaches the emitter: whether it is the user's own, and its id, zero for none. */
  datatype Msg = Msg(self: bool, id: int)

  /** The ids of other senders' messages that carry one: all that the window ever sees. */
  function OtherIds(msgs: seq<Msg>): seq<int>
  {
    if msgs == [] then []
    else
      var last := msgs[|msgs| - 1];
      OtherIds(msgs[..|msgs| - 1]) + if last.self || last.id == 0 then [] else [last.id]
  }

  /** What a stream publishes. */
  function Published(msgs: seq<Msg>): seq<int>
  {
    if msgs == [] then []
    else
      var init, last := msgs[..|msgs| - 1], msgs[|msgs| - 1];
      Published(init) + if last.self || (last.id != 0 && last.id in Run(OtherIds(init)).ids) then [] else [last.id]
  }

  /** The same stream in front of an unbounded set. */
  function PublishedOnce(msgs: seq<Msg>): seq<int>
  {
    if msgs == [] then []
    else
      var init, last := msgs[..|msgs| - 1], msgs[|msgs| - 1];
      PublishedOnce(init) + if last.self || (last.id != 0 && last.id in OtherIds(init)) then [] else [last.id]
  }

  lemma OtherIdsGrow(msgs: seq<Msg>)
    requires msgs != []
    ensures IdsOf(OtherIds(msgs[..|msgs| - 1])) <= IdsOf(OtherIds(msgs))
  {
  }

  /** A stream with no more than 50000 different ids publishes as in front of an unbounded set, in whatever order. */
  lemma {:induction false} FewIdsArePublishedOnce(msgs: seq<Msg>)
    requires |IdsOf(OtherIds(msgs))| <= 50000
    ensures Published(msgs) == PublishedOnce(msgs)
  {
    if msgs != [] {
      var init := msgs[..|msgs| - 1];
      OtherIdsGrow(msgs);
      SubsetIsSmaller(IdsOf(OtherIds(init)), IdsOf(OtherIds(msgs)));
      FewIdsArePublishedOnce(init);
      NothingForgotten(OtherIds(init));
    }
  }

  /** Emitting a stream from a fresh window. */
  method EmitAll(msgs: seq<Msg>, seen: SeenIds, out: Outbox)
    requires seen.Value() == EMPTY
    modifies seen, out
    ensures seen.Value() == Run(OtherIds(msgs))
    ensures out.ids == old(out.ids) + Published(msgs)
  {
    for i := 0 to |msgs|
      invariant seen.Value() == Run(OtherIds(msgs[..i]))
      invariant out.ids == old(out.ids) + Published(msgs[..i])
    {
      OneMoreMessage(msgs, i);
      seen.Emit(msgs[i].self, msgs[i].id, out);
    }
    assert msgs[..|msgs|] == msgs;
  }

  lemma OneMoreMessage(msgs: seq<Msg>, i: nat)
    requires i < |msgs|
    ensures var m, ids := msgs[i], OtherIds(msgs[..i]);
            && OtherIds(msgs[..i + 1]) == ids + (if m.self || m.id == 0 then [] else [m.id])
            && (m.self || m.id == 0 ==> Run(OtherIds(msgs[..i + 1])) == Run(ids))
            && (!m.self && m.id != 0 ==> Run(OtherIds(msgs[..i + 1])) == Mark(Run(ids), m.id))
            && Published(msgs[..i + 1])
               == Published(msgs[..i]) + if m.self || (m.id != 0 && m.id in Run(ids).ids) then [] else [m.id]
  {
    var m, ids := msgs[i], OtherIds(msgs[..i]);
    assert msgs[..i + 1][..i] == msgs[..i];
    assert (ids + [m.id])[..|ids|] == ids;
    assert ids + [] == ids;
  }

  /** If others' ids are not repeated from behind the window, publishing is that of an unbounded set. */
  lemma {:induction false} StreamRefinesUnboundedSet(msgs: seq<Msg>)
    requires NoLateRepeats(OtherIds(msgs))
    ensures Published(msgs) == PublishedOnce(msgs)
  {
    if msgs != [] {
      var init, last := msgs[..|msgs| - 1], msgs[|msgs| - 1];
      var ids := OtherIds(init);
      if last.self || last.id == 0 {
        assert OtherIds(msgs) == ids;
      } else {
        NoLateRepeatsSnoc(ids, last.id);
        AnswersLikeUnboundedSet(ids, last.id);
      }
      StreamRefinesUnboundedSet(init);
    }
  }

  lemma NoLateRepeatsSnoc(ids: seq<int>, id: int)
    requires NoLateRepeats(ids + [id])
    ensures NoLateRepeats(ids) && InTime(ids, id)
  {
    var all := ids + [id];
    forall i | 0 <= i < |ids|
      ensures InTime(ids[..i], ids[i])
    {
      assert InTime(all[..i], all[i]) && all[..i] == ids[..i];
    }
    assert InTime(all[..|ids|], all[|ids|]) && all[..|ids|] == ids;
  }

  function WithId(ids: seq<int>): seq<int>
  {
    if ids == [] then []
    else WithId(ids[..|ids| - 1]) + if ids[|ids| - 1] == 0 then [] else [ids[|ids| - 1]]
  }

  /** How many of others' messages carry no id. */
  function WithoutId(msgs: seq<Msg>): nat
  {
    if msgs == [] then 0
    else
      var last := msgs[|msgs| - 1];
      WithoutId(msgs[..|msgs| - 1]) + if !last.self && last.id == 0 then 1 else 0
  }

  function Zeros(ids: seq<int>): nat
  {
    if ids == [] then 0 else Zeros(ids[..|ids| - 1]) + if ids[|ids| - 1] == 0 then 1 else 0
  }

  lemma FirstOccurrencesSnoc(ids: seq<int>, id: int)
    ensures FirstOccurrences(ids + [id]) == if id in ids then FirstOccurrences(ids) else FirstOccurrences(ids) + [id]
  {
    assert (ids + [id])[..|ids|] == ids;
    assert FirstOccurrences(ids) + [] == FirstOccurrences(ids);
  }

  lemma WithIdSnoc(ids: seq<int>, id: int)
    ensures WithId(ids + [id]) == if id == 0 then WithId(ids) else WithId(ids) + [id]
    ensures Zeros(ids + [id]) == Zeros(ids) + if id == 0 then 1 else 0
  {
    assert (ids + [id])[..|ids|] == ids;
    assert WithId(ids) + [] == WithId(ids);
  }

  /**
    What an unbounded set publishes: of other senders' messages every one without an id, and of those with an id
    exactly the first occurrence of each, in order.
   */
  lemma {:induction false} OthersOnceEach(msgs: seq<Msg>)
    ensures WithId(PublishedOnce(msgs)) == FirstOccurrences(OtherIds(msgs))
    ensures Zeros(PublishedOnce(msgs)) == WithoutId(msgs)
  {
    if msgs != [] {
      var init, last := msgs[..|msgs| - 1], msgs[|msgs| - 1];
      OthersOnceEach(init);
      assert msgs == init + [last];
      OneMoreOnceEach(init, last);
    }
  }

  lemma OneMoreOnceEach(init: seq<Msg>, last: Msg)
    requires WithId(PublishedOnce(init)) == FirstOccurrences(OtherIds(init))
    requires Zeros(PublishedOnce(init)) == WithoutId(init)
    ensures WithId(PublishedOnce(init + [last])) == FirstOccurrences(OtherIds(init + [last]))
    ensures Zeros(PublishedOnce(init + [last])) == WithoutId(init + [last])
  {
    OneMorePublished(init, last);
    WithIdSnoc(PublishedOnce(init), last.id);
    FirstOccurrencesSnoc(OtherIds(init), last.id);
  }

  /** What one more message adds, case by case: the user's own, one without an id, a repeat, a first occurrence. */
  lemma OneMorePublished(init: seq<Msg>, last: Msg)
    ensures var msgs := init + [last];
            var repeat := last.id != 0 && last.id in OtherIds(init);
            && PublishedOnce(msgs)
               == (if last.self || repeat then PublishedOnce(init) else PublishedOnce(init) + [last.id])
            && OtherIds(msgs) == (if last.self || last.id == 0 then OtherIds(init) else OtherIds(init) + [last.id])
            && WithoutId(msgs) == WithoutId(init) + if !last.self && last.id == 0 then 1 else 0
  {
    assert (init + [last])[..|init|] == init;
    assert PublishedOnce(init) + [] == PublishedOnce(init);
    assert OtherIds(init) + [] == OtherIds(init);
  }

  /** Hence the emitter publishes each id of such a stream once, and drops no message. */
  lemma StreamIsPublishedOnce(msgs: seq<Msg>)
    requires NoLateRepeats(OtherIds(msgs))
    ensures WithId(Published(msgs)) == FirstOccurrences(OtherIds(msgs))
    ensures Zeros(Published(msgs)) == WithoutId(msgs)
  {
    StreamRefinesUnboundedSet(msgs);
    OthersOnceEach(msgs);
  }

  // ---- where the bound shows ----

  function UpTo(n: nat): (ids: seq<int>)
    ensures |ids| == n
    ensures forall i :: 0 <= i < n ==> ids[i] == i + 1
  {
    seq(n, i => i + 1)
  }

  predicate InWindow(k: int, n: int) { 1 <= k <= n && k >= n - SEEN_KEEP_WINDOW }

  lemma {:induction false} CountUp(n: nat)
    ensures forall k :: k in Run(UpTo(n)).ids <==> InWindow(k, n)
  {
    if n != 0 {
      CountUp(n - 1);
      assert UpTo(n)[..n - 1] == UpTo(n - 1);
      RunInvariant(UpTo(n - 1));
      NewestOfCount(n - 1);
      CountOneMore(Run(UpTo(n - 1)), n);
    }
  }

  lemma CountOneMore(w: Window, n: nat)
    requires n > 0 && w.maxId == n - 1
    requires forall k :: k in w.ids <==> InWindow(k, n - 1)
    ensures forall k :: k in Mark(w, n).ids <==> InWindow(k, n)
  {
    var grown := Window(w.ids + {n}, n);
    if n > SEEN_KEEP_WINDOW + 1 {
      forall k | n - 1 - SEEN_KEEP_WINDOW <= k <= n
        ensures k in grown.ids
      {
        assert k == n || InWindow(k, n - 1);
      }
      IntervalSize(grown.ids, n - 1 - SEEN_KEEP_WINDOW, n);
    }
  }

  lemma {:induction false} NewestOfCount(n: nat)
    ensures Newest(UpTo(n)) == n
  {
    if n != 0 {
      NewestOfCount(n - 1);
      assert UpTo(n)[..n - 1] == UpTo(n - 1);
    }
  }

  /** After the ids 1..n, a repeat of id k is published again exactly when it lies before the window. */
  lemma LateRepeatIsPublishedAgain(n: nat, k: int)
    requires 1 <= k <= n
    ensures k !in Run(UpTo(n)).ids <==> k < n - SEEN_KEEP_WINDOW
  {
    CountUp(n);
  }
}
