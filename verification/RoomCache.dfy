/** The room profile cache, its throttle of negative results, and the worker's summary fetches. Times in nanoseconds. */
module RoomCache {
  import opened CacheTimes
  import opened Options
  import opened RoomProfile
  import opened Sets

  type RoomId = string

  datatype Cached = Cached(profile: Profile, lastSeen: int)

  /** One summary request: when it was sent and whether handling it panicked. */
  datatype Sent = Sent(room: RoomId, at: int, panicked: bool)

  /** What a finished summary fetch brought. */
  datatype Outcome = Failed | Summary(profile: Profile) | Panicked

  datatype State = State(
    profiles: map<RoomId, Cached>, attempts: Times, inFlight: Option<RoomId>, sent: seq<Sent>)

  const FRESH: State := State(map[], map[], None, [])

  // ---- noting profiles ----

  predicate IsNote(src: map<RoomId, Option<Profile>>, id: RoomId)
  {
    id in src && src[id].Some? && HasVisibleData(src[id].value)
  }

  function NotedEntry(ps: map<RoomId, Cached>, id: RoomId, p: Profile, now: int): Cached
  {
    Cached(if id in ps then Merge(ps[id].profile, p) else p, now)
  }

  /** The cache with every visible source profile folded in. */
  function Noted(ps: map<RoomId, Cached>, src: map<RoomId, Option<Profile>>, now: int): map<RoomId, Cached>
  {
    ps + map id | id in src && IsNote(src, id) :: NotedEntry(ps, id, src[id].value, now)
  }

  function PruneProfiles(ps: map<RoomId, Cached>, now: int): map<RoomId, Cached>
  {
    map id | id in ps && now - ps[id].lastSeen <= TTL :: ps[id]
  }

  /** An empty batch returns early: it does not even prune. */
  function Note(s: State, src: map<RoomId, Option<Profile>>, now: int): State
  {
    if src == map[] then s
    else s.(profiles := PruneProfiles(Noted(s.profiles, src, now), now), attempts := Young(s.attempts, now))
  }

  // ---- what noting a batch promises ----

  predicate NotWorse(p: Profile, p': Profile) { p'.quality >= p.quality && KeepsPublished(p, p') }

  /** A noted room is seen now; a new one is the source, a cached one takes what that supplies and keeps the rest. */
  ghost predicate TakesSource(before: map<RoomId, Cached>, id: RoomId, src: Profile, now: int, after: Cached)
  {
    && after.lastSeen == now
    && if id in before then
         var was := before[id].profile;
         Covers(after.profile, src) && KeepsRest(was, src, after.profile) && NotWorse(was, after.profile)
       else after.profile == src
  }

  /** Every visible room of the batch is taken; the others stay as they were, unless last seen too long ago. */
  ghost predicate TakesBatch(
    before: map<RoomId, Cached>, src: map<RoomId, Option<Profile>>, now: int, after: map<RoomId, Cached>)
  {
    && (forall id | id in src && IsNote(src, id) ::
          id in after && TakesSource(before, id, src[id].value, now, after[id]))
    && (forall id | !IsNote(src, id) :: id in after <==> id in before && now - before[id].lastSeen <= TTL)
    && forall id <- after | !IsNote(src, id) :: after[id] == before[id]
  }

  lemma MergeTakes(p: Profile, src: Profile)
    ensures var m := Merge(p, src); Covers(m, src) && KeepsRest(p, src, m) && NotWorse(p, m)
  {
    MergeIsExact(p, src, Merge(p, src));
    MergeIsMonotone(p, src);
  }

  lemma NotingTakesBatch(before: map<RoomId, Cached>, src: map<RoomId, Option<Profile>>, now: int)
    ensures TakesBatch(before, src, now, PruneProfiles(Noted(before, src, now), now))
  {
    var after := PruneProfiles(Noted(before, src, now), now);
    forall id: RoomId
      ensures IsNote(src, id) ==> id in after && TakesSource(before, id, src[id].value, now, after[id])
      ensures !IsNote(src, id) ==> (id in after <==> id in before && now - before[id].lastSeen <= TTL)
      ensures !IsNote(src, id) && id in after ==> after[id] == before[id]
    {
      NotedAt(before, src, id, now);
      if IsNote(src, id) && id in before {
        MergeTakes(before[id].profile, src[id].value);
      }
    }
  }

  predicate IsSaved(saved: map<RoomId, Option<Cached>>, id: RoomId)
  {
    id in saved && saved[id].Some? && HasVisibleData(saved[id].value.profile)
  }

  /** A restored room takes the place of a cached one; what cannot be published is not restored. */
  function Restore(s: State, saved: map<RoomId, Option<Cached>>): State
  {
    s.(profiles := Restored(s.profiles, saved))
  }

  function Restored(ps: map<RoomId, Cached>, saved: map<RoomId, Option<Cached>>): map<RoomId, Cached>
  {
    ps + map id | id in saved && IsSaved(saved, id) :: saved[id].value
  }

  function Unbound(s: State): State { s.(profiles := map[], attempts := map[]) }

  // ---- the worker ----

  /** Whether the worker goes on to fetch a room's summary at a given time. */
  predicate MayFetch(s: State, room: RoomId, now: int)
  {
    && (room in s.attempts ==> now - s.attempts[room] >= COOLDOWN)
    && !(room in s.profiles && HasVisibleData(s.profiles[room].profile))
  }

  function Begin(s: State, room: RoomId, now: int, haveClient: bool): State
  {
    if MayFetch(s, room, now) && haveClient then
      s.(inFlight := Some(room), sent := s.sent + [Sent(room, now, false)])
    else s
  }

  /** The fetch returned at time now; a visible summary is noted at the slightly later time noted. */
  function Finish(s: State, o: Outcome, now: int, noted: int): State
    requires s.inFlight.Some? && s.sent != []
  {
    var room := s.inFlight.value;
    var t := s.(inFlight := None);
    match o
    case Failed => t.(attempts := t.attempts[room := now])
    case Summary(p) =>
      if HasVisibleData(p) then Note(t, map[room := Some(p)], noted)
      else t.(attempts := t.attempts[room := now])
    case Panicked =>
      var k := |s.sent| - 1;
      t.(sent := s.sent[k := s.sent[k].(panicked := true)])
  }

  class ProfileCache {
    var profiles: map<RoomId, Cached>
    var attempts: Times
    var inFlight: Option<RoomId>
    var sent: seq<Sent>

    function Value(): State
      reads this
    {
      State(profiles, attempts, inFlight, sent)
    }

    constructor ()
      ensures Value() == FRESH
    {
      profiles, attempts, inFlight, sent := map[], map[], None, [];
    }

    method NoteProfiles(src: map<RoomId, Option<Profile>>, now: int)
      modifies this`profiles, this`attempts
      ensures Value() == Note(old(Value()), src, now)
      ensures if src == map[] then profiles == old(profiles) && attempts == old(attempts)
              else TakesBatch(old(profiles), src, now, profiles) && KeepsYoung(old(attempts), attempts, now)
    {
      NotingTakesBatch(profiles, src, now);
      EmptyBatch(src);
      if |src| == 0 {
        return;
      }
      NoteEach(src, now);
      DeleteOld(now);
    }

    /** The two range loops that delete what has not been seen for the lifetime. */
    method DeleteOld(now: int)
      modifies this`profiles, this`attempts
      ensures profiles == PruneProfiles(old(profiles), now) && attempts == Young(old(attempts), now)
      ensures KeepsYoung(old(attempts), attempts, now)
      ensures forall id :: id in profiles <==> id in old(profiles) && now - old(profiles)[id].lastSeen <= TTL
      ensures forall id <- profiles :: profiles[id] == old(profiles)[id]
    {
      profiles := DeleteUnless(profiles, (p: Cached) => now - p.lastSeen <= TTL);
      attempts := PruneTimes(attempts, now);
    }

    /** The range loop over the batch; its order does not show. */
    method NoteEach(src: map<RoomId, Option<Profile>>, now: int)
      modifies this`profiles
      ensures profiles == Noted(old(profiles), src, now)
    {
      ghost var before := profiles;
      ghost var done: map<RoomId, Option<Profile>> := map[];
      var rest := src.Keys;
      while rest != {}
        invariant rest <= src.Keys && done.Keys == src.Keys - rest
        invariant forall id <- done :: done[id] == src[id]
        invariant profiles == Noted(before, done, now)
        decreases rest
      {
        var id := TakeAny(rest);
        rest := rest - {id};
        NotedStep(before, done, id, src[id], now);
        done := done[id := src[id]];
        NoteOne(id, src[id], now);
      }
      assert done == src;
    }

    method NoteOne(id: RoomId, p: Option<Profile>, now: int)
      modifies this`profiles
      ensures profiles == if p.Some? && HasVisibleData(p.value)
                          then old(profiles)[id := NotedEntry(old(profiles), id, p.value, now)] else old(profiles)
    {
      if p.None? || !HasVisibleData(p.value) {
        return;
      }
      if id in profiles {
        var merged := MergeInPlace(profiles[id].profile, p.value);
        profiles := profiles[id := Cached(merged, now)];
      } else {
        profiles := profiles[id := Cached(p.value, now)];
      }
    }

    method RestoreProfiles(saved: map<RoomId, Option<Cached>>)
      modifies this`profiles
      ensures Value() == Restore(old(Value()), saved)
      ensures forall id :: id in profiles <==> id in old(profiles) || IsSaved(saved, id)
      ensures forall id <- profiles ::
                profiles[id] == if IsSaved(saved, id) then saved[id].value else old(profiles)[id]
    {
      ghost var before := profiles;
      var rest := saved.Keys;
      while rest != {}
        invariant rest <= saved.Keys
        invariant forall id :: id in profiles <==> id in before || (IsSaved(saved, id) && id !in rest)
        invariant forall id <- profiles ::
                    profiles[id] == if IsSaved(saved, id) && id !in rest then saved[id].value else before[id]
        decreases rest
      {
        var id := TakeAny(rest);
        rest := rest - {id};
        if saved[id].None? || !HasVisibleData(saved[id].value.profile) {
          continue;
        }
        profiles := profiles[id := saved[id].value];
      }
      assert profiles == Restored(before, saved);
    }

    /** Binding to another home server forgets everything. */
    method BindProfiles(sameHost: bool)
      modifies this`profiles, this`attempts
      ensures Value() == if sameHost then old(Value()) else Unbound(old(Value()))
      ensures !sameHost ==> profiles == map[] && attempts == map[]
    {
      if !sameHost {
        profiles, attempts := map[], map[];
      }
    }

    method BeginBackfill(room: RoomId, now: int, haveClient: bool) returns (fetching: bool)
      requires inFlight.None?
      modifies this`inFlight, this`sent
      ensures Value() == Begin(old(Value()), room, now, haveClient)
      ensures fetching <==> inFlight.Some?
      ensures fetching <==>
              && !(room in attempts && now - attempts[room] < COOLDOWN)
              && !(room in profiles && HasVisibleData(profiles[room].profile))
              && haveClient
    {
      fetching := false;
      if room in attempts && now - attempts[room] < COOLDOWN {
        return;
      }
      if room in profiles && HasVisibleData(profiles[room].profile) {
        return;
      }
      if !haveClient {
        return;
      }
      inFlight, sent := Some(room), sent + [Sent(room, now, false)];
      fetching := true;
    }

    method FinishBackfill(o: Outcome, now: int, noted: int)
      requires inFlight.Some? && sent != []
      modifies this
      ensures Value() == Finish(old(Value()), o, now, noted)
      ensures inFlight == None
      ensures match o
              case Summary(p) =>
                if HasVisibleData(p) then
                  && TakesBatch(old(profiles), map[old(inFlight).value := Some(p)], noted, profiles)
                  && KeepsYoung(old(attempts), attempts, noted)
                else profiles == old(profiles) && attempts == old(attempts)[old(inFlight).value := now]
              case Failed => profiles == old(profiles) && attempts == old(attempts)[old(inFlight).value := now]
              case Panicked => profiles == old(profiles) && attempts == old(attempts)
    {
      var room := inFlight.value;
      inFlight := None;
      match o {
        case Failed =>
          attempts := attempts[room := now];
        case Summary(p) =>
          if !HasVisibleData(p) {
            attempts := attempts[room := now];
          } else {
            var src := map[room := Some(p)];
            assert room in src;
            NoteProfiles(src, noted);
          }
        case Panicked =>
          var k := |sent| - 1;
          sent := sent[k := sent[k].(panicked := true)];
      }
    }
  }

  lemma EmptyBatch(src: map<RoomId, Option<Profile>>)
    ensures |src| == 0 <==> src == map[]
  {
  }

  method MergeInPlace(p: Profile, src: Profile) returns (merged: Profile)
    ensures merged == Merge(p, src)
  {
    var dp := new RoomAttributes();
    dp.name, dp.quality, dp.avatar, dp.explicitAvatar := p.name, p.quality, p.avatar, p.explicitAvatar;
    dp.topic, dp.alias, dp.roomType, dp.roomVersion := p.topic, p.alias, p.roomType, p.roomVersion;
    dp.federated, dp.memberCount := p.federated, p.memberCount;
    var _ := dp.MergeFrom(src);
    merged := dp.Value();
  }

  lemma NotedStep(ps: map<RoomId, Cached>, src: map<RoomId, Option<Profile>>, id: RoomId, p: Option<Profile>, now: int)
    requires id !in src
    ensures Noted(ps, src[id := p], now)
         == if p.Some? && HasVisibleData(p.value) then Noted(ps, src, now)[id := NotedEntry(ps, id, p.value, now)]
            else Noted(ps, src, now)
    ensures id in Noted(ps, src, now) <==> id in ps
    ensures id in ps ==> Noted(ps, src, now)[id] == ps[id]
  {
    var a, b := Noted(ps, src, now), Noted(ps, src[id := p], now);
    NotedAt(ps, src, id, now);
    NotedAt(ps, src[id := p], id, now);
    var c := if p.Some? && HasVisibleData(p.value) then a[id := NotedEntry(ps, id, p.value, now)] else a;
    forall i: RoomId
      ensures SameAt(c, b, i)
    {
      if i != id {
        NotedElsewhere(ps, src, id, p, i, now);
        assert SameAt(a, c, i);
      }
    }
    SameEverywhere(c, b);
  }

  ghost predicate SameAt(a: map<RoomId, Cached>, b: map<RoomId, Cached>, i: RoomId)
  {
    (i in a <==> i in b) && (i in a ==> a[i] == b[i])
  }

  lemma NotedElsewhere(
    ps: map<RoomId, Cached>, src: map<RoomId, Option<Profile>>, id: RoomId, p: Option<Profile>, i: RoomId, now: int)
    requires i != id
    ensures SameAt(Noted(ps, src, now), Noted(ps, src[id := p], now), i)
  {
    NotedAt(ps, src, i, now);
    NotedAt(ps, src[id := p], i, now);
  }

  lemma SameEverywhere(a: map<RoomId, Cached>, b: map<RoomId, Cached>)
    requires forall i :: SameAt(a, b, i)
    ensures a == b
  {
    assert forall i :: i in a ==> SameAt(a, b, i);
    assert forall i :: i in b ==> SameAt(a, b, i);
  }

  lemma NotedAt(ps: map<RoomId, Cached>, src: map<RoomId, Option<Profile>>, id: RoomId, now: int)
    ensures id in Noted(ps, src, now) <==> id in ps || IsNote(src, id)
    ensures IsNote(src, id) ==> Noted(ps, src, now)[id] == NotedEntry(ps, id, src[id].value, now)
    ensures !IsNote(src, id) && id in ps ==> Noted(ps, src, now)[id] == ps[id]
  {
  }

  // ---- every reachable cache ----

  datatype Action =
    | Sync(src: map<RoomId, Option<Profile>>, now: int)
    | Start(room: RoomId, now: int, haveClient: bool)
    | Done(outcome: Outcome, now: int, noted: int)
    | Load(saved: map<RoomId, Option<Cached>>)
    | Rebind

  /** The single worker handles one room at a time. */
  predicate Enabled(s: State, a: Action)
  {
    match a
    case Start(_, _, _) => s.inFlight.None?
    case Done(_, _, _) => s.inFlight.Some? && s.sent != []
    case _ => true
  }

  function Apply(s: State, a: Action): State
    requires Enabled(s, a)
  {
    match a
    case Sync(src, now) => Note(s, src, now)
    case Start(room, now, haveClient) => Begin(s, room, now, haveClient)
    case Done(o, now, noted) => Finish(s, o, now, noted)
    case Load(saved) => Restore(s, saved)
    case Rebind => Unbound(s)
  }

  ghost predicate StepsAt(acts: seq<Action>, states: seq<State>, k: nat)
    requires k < |acts| && k + 1 < |states|
  {
    Enabled(states[k], acts[k]) && states[k + 1] == Apply(states[k], acts[k])
  }

  ghost predicate IsRun(s: State, acts: seq<Action>, states: seq<State>)
  {
    && |states| == |acts| + 1 && states[0] == s
    && forall k :: 0 <= k < |acts| ==> StepsAt(acts, states, k)
  }

  ghost predicate AllVisible(s: State)
  {
    forall id <- s.profiles :: HasVisibleData(s.profiles[id].profile)
  }

  /** Nothing that cannot be published is ever cached, restored or not. */
  lemma StepKeepsVisible(s: State, a: Action)
    requires Enabled(s, a) && AllVisible(s)
    ensures AllVisible(Apply(s, a))
  {
    match a {
      case Sync(src, now) => NotedIsVisible(s.profiles, src, now);
      case Done(Summary(p), _, noted) => NotedIsVisible(s.profiles, map[s.inFlight.value := Some(p)], noted);
      case Load(saved) => RestoreKeepsVisible(s, saved);
      case _ =>
    }
  }

  lemma NotedIsVisible(ps: map<RoomId, Cached>, src: map<RoomId, Option<Profile>>, now: int)
    requires forall id <- ps :: HasVisibleData(ps[id].profile)
    ensures forall id <- Noted(ps, src, now) :: HasVisibleData(Noted(ps, src, now)[id].profile)
  {
    forall id | id in Noted(ps, src, now)
      ensures HasVisibleData(Noted(ps, src, now)[id].profile)
    {
      if IsNote(src, id) && id in ps {
        MergeIsMonotone(ps[id].profile, src[id].value);
      }
    }
  }

  lemma RestoreKeepsVisible(s: State, saved: map<RoomId, Option<Cached>>)
    requires AllVisible(s)
    ensures AllVisible(Restore(s, saved))
  {
    var s' := Restore(s, saved);
    forall id | id in s'.profiles
      ensures HasVisibleData(s'.profiles[id].profile)
    {
      if IsSaved(saved, id) {
        assert s'.profiles[id] == saved[id].value;
      }
    }
  }

  /** In every run, restores and changes of the home server included. */
  lemma {:induction false} CacheIsPublishable(s: State, acts: seq<Action>, states: seq<State>, k: nat)
    requires AllVisible(s) && IsRun(s, acts, states) && k < |states|
    ensures AllVisible(states[k])
  {
    if k > 0 {
      CacheIsPublishable(s, acts, states, k - 1);
      assert StepsAt(acts, states, k - 1);
      StepKeepsVisible(states[k - 1], acts[k - 1]);
    }
  }

  lemma NoteIsNotWorse(s: State, src: map<RoomId, Option<Profile>>, now: int, id: RoomId)
    requires id in s.profiles && id in Note(s, src, now).profiles
    ensures NotWorse(s.profiles[id].profile, Note(s, src, now).profiles[id].profile)
  {
    if IsNote(src, id) {
      MergeIsMonotone(s.profiles[id].profile, src[id].value);
    }
  }

  lemma StepIsNotWorse(s: State, a: Action, id: RoomId)
    requires Enabled(s, a) && !a.Load? && id in s.profiles && id in Apply(s, a).profiles
    ensures NotWorse(s.profiles[id].profile, Apply(s, a).profiles[id].profile)
  {
    match a {
      case Sync(src, now) => NoteIsNotWorse(s, src, now, id);
      case Done(Summary(p), _, noted) =>
        if HasVisibleData(p) {
          NoteIsNotWorse(s.(inFlight := None), map[s.inFlight.value := Some(p)], noted, id);
        }
      case _ =>
    }
  }

  /** While a room stays cached and no restore takes its place, nothing about it degrades. */
  lemma {:induction false} CachedRoomNeverDegrades(
    s: State, acts: seq<Action>, states: seq<State>, i: nat, j: nat, id: RoomId)
    requires IsRun(s, acts, states) && i <= j < |states|
    requires forall k :: i <= k <= j ==> id in states[k].profiles
    requires forall k :: i <= k < j ==> !acts[k].Load?
    ensures NotWorse(states[i].profiles[id].profile, states[j].profiles[id].profile)
    decreases j
  {
    if i < j {
      CachedRoomNeverDegrades(s, acts, states, i, j - 1, id);
      StepInRun(s, acts, states, j - 1, id);
      NotWorseChain(states[i].profiles[id].profile, states[j - 1].profiles[id].profile, states[j].profiles[id].profile);
    }
  }

  lemma StepInRun(s: State, acts: seq<Action>, states: seq<State>, k: nat, id: RoomId)
    requires IsRun(s, acts, states) && k < |acts| && !acts[k].Load?
    requires id in states[k].profiles && id in states[k + 1].profiles
    ensures NotWorse(states[k].profiles[id].profile, states[k + 1].profiles[id].profile)
  {
    assert StepsAt(acts, states, k);
    StepIsNotWorse(states[k], acts[k], id);
  }

  lemma NotWorseChain(p: Profile, q: Profile, r: Profile)
    requires NotWorse(p, q) && NotWorse(q, r)
    ensures NotWorse(p, r)
  {
  }

  // ---- each attribute is the last one supplied, until the room is forgotten ----

  datatype Attribute = Avatar | Topic | Alias | RoomType | RoomVersion | Federated | MemberCount

  datatype Supply = Text(text: string) | Flag(flag: bool) | Count(count: int)

  /** What a profile supplies of an attribute; empty texts and counts that are not positive supply nothing. */
  function Get(p: Profile, a: Attribute): Option<Supply>
  {
    match a
    case Avatar => if NonEmpty(p.avatar) then Some(Supply.Text(p.avatar.value)) else None
    case Topic => if NonEmpty(p.topic) then Some(Supply.Text(p.topic.value)) else None
    case Alias => if NonEmpty(p.alias) then Some(Supply.Text(p.alias.value)) else None
    case RoomType => if p.roomType != "" then Some(Supply.Text(p.roomType)) else None
    case RoomVersion => if p.roomVersion != "" then Some(Supply.Text(p.roomVersion)) else None
    case Federated => if p.federated.Some? then Some(Flag(p.federated.value)) else None
    case MemberCount => if p.memberCount > 0 then Some(Count(p.memberCount)) else None
  }

  /** The batch an action notes and its time: a sync's, or the summary of the room in flight. */
  function BatchOf(s: State, a: Action): (map<RoomId, Option<Profile>>, int)
  {
    match a
    case Sync(src, now) => (src, now)
    case Done(Summary(p), _, noted) =>
      if s.inFlight.Some? && HasVisibleData(p) then (map[s.inFlight.value := Some(p)], noted) else (map[], 0)
    case _ => (map[], 0)
  }

  /** What an action brings of a room, and when the room was seen. */
  function Brought(s: State, a: Action, id: RoomId): Option<Cached>
  {
    var (src, now) := BatchOf(s, a);
    if IsNote(src, id) then Some(Cached(src[id].value, now))
    else if a.Load? && IsSaved(a.saved, id) then a.saved[id]
    else None
  }

  /** The action makes the cache forget a room seen at a time. */
  predicate Forgets(s: State, a: Action, at: int)
  {
    var (src, now) := BatchOf(s, a);
    a.Rebind? || (src != map[] && now - at > TTL)
  }

  /** When a room was last seen by the first k actions, unless it was forgotten since. */
  function LastSeen(acts: seq<Action>, states: seq<State>, k: nat, id: RoomId): Option<int>
    requires k <= |acts| < |states|
  {
    if k == 0 then None
    else
      var s, a := states[k - 1], acts[k - 1];
      var before, brought := LastSeen(acts, states, k - 1, id), Brought(s, a, id);
      if brought.Some? then Some(brought.value.lastSeen)
      else if before.Some? && Forgets(s, a, before.value) then None
      else before
  }

  /** The last value supplied for an attribute since the room was last forgotten; a restore replaces all of them. */
  function LastSupplied(acts: seq<Action>, states: seq<State>, k: nat, id: RoomId, f: Attribute): Option<Supply>
    requires k <= |acts| < |states|
  {
    if k == 0 then None
    else
      var a, brought := acts[k - 1], Brought(states[k - 1], acts[k - 1], id);
      if brought.Some? && (a.Load? || Get(brought.value.profile, f).Some?) then Get(brought.value.profile, f)
      else if LastSeen(acts, states, k, id).None? then None
      else LastSupplied(acts, states, k - 1, id, f)
  }

  lemma MergeAttribute(p: Profile, src: Profile, f: Attribute)
    ensures Get(Merge(p, src), f) == if Get(src, f).Some? then Get(src, f) else Get(p, f)
  {
    MergeTakesSource(p, src);
  }

  /** One action: what is cached of a room afterwards, since when, and an attribute of it. */
  lemma StepSupplies(s: State, a: Action, id: RoomId, f: Attribute)
    requires Enabled(s, a)
    ensures var s', brought := Apply(s, a), Brought(s, a, id);
            var known := id in s.profiles && !Forgets(s, a, s.profiles[id].lastSeen);
            && (id in s'.profiles <==> brought.Some? || known)
            && (brought.Some? ==> s'.profiles[id].lastSeen == brought.value.lastSeen)
            && (brought.None? && known ==> s'.profiles[id] == s.profiles[id])
            && (brought.Some? ==>
                  var keeps := !a.Load? && Get(brought.value.profile, f).None? && id in s.profiles;
                  Get(s'.profiles[id].profile, f)
                  == Get(if keeps then s.profiles[id].profile else brought.value.profile, f))
  {
    var (src, now) := BatchOf(s, a);
    if src != map[] {
      NotedAt(s.profiles, src, id, now);
      if IsNote(src, id) && id in s.profiles {
        MergeAttribute(s.profiles[id].profile, src[id].value, f);
      }
    }
  }

  /** For every run from a fresh cache: which rooms are cached, since when, and every attribute of theirs. */
  lemma {:induction false} AttributesAreLastSupplied(
    acts: seq<Action>, states: seq<State>, k: nat, id: RoomId, f: Attribute)
    requires IsRun(FRESH, acts, states) && k < |states|
    ensures var ps := states[k].profiles;
            && (id in ps <==> LastSeen(acts, states, k, id).Some?)
            && (id in ps ==> ps[id].lastSeen == LastSeen(acts, states, k, id).value)
            && LastSupplied(acts, states, k, id, f) == if id in ps then Get(ps[id].profile, f) else None
  {
    if k > 0 {
      AttributesAreLastSupplied(acts, states, k - 1, id, f);
      assert StepsAt(acts, states, k - 1);
      StepSupplies(states[k - 1], acts[k - 1], id, f);
    }
  }

  // ---- the cooldown between fetches ----

  /**
    How much older than a fetch the reading of a sync applied after it may be. A sync reads the clock before it takes
    the lock, and the lock is held but briefly.
   */
  const SKEW: int := TTL - COOLDOWN + 1

  /** The latest reading an action carries, zero if it carries none. */
  function Reading(a: Action): int
  {
    match a
    case Sync(_, now) => now
    case Start(_, now, _) => now
    case Done(_, _, noted) => noted
    case _ => 0
  }

  /**
    The worker's readings follow one another; a start reads the clock after all that was applied before it; a sync's
    reading may be older than what was applied before it, within the skew.
   */
  ghost predicate ClockRuns(acts: seq<Action>)
  {
    && (forall k :: 0 <= k < |acts| && acts[k].Done? ==> acts[k].now <= acts[k].noted)
    && (forall k :: 0 <= k < |acts| && acts[k].Start? ==> acts[k].now > 0)
    && (forall j, k :: 0 <= j < k < |acts| && acts[k].Start? ==> Reading(acts[j]) <= acts[k].now)
    && (forall j, k :: 0 <= j < k < |acts| && acts[j].Start? && acts[k].Done? ==> acts[j].now <= acts[k].now)
    && (forall j, k :: 0 <= j < k < |acts| && acts[j].Start? && acts[k].Sync? ==> acts[j].now - SKEW <= acts[k].now)
  }

  /** The cache is neither refilled from a file nor bound to another server. */
  ghost predicate OneServer(acts: seq<Action>)
  {
    forall k :: 0 <= k < |acts| ==> !acts[k].Load? && !acts[k].Rebind?
  }

  function Latest(acts: seq<Action>): int
  {
    if acts == [] then 0
    else
      var l, r := Latest(acts[..|acts| - 1]), Reading(acts[|acts| - 1]);
      if r > l then r else l
  }

  ghost predicate StartedAt(acts: seq<Action>, at: int)
  {
    exists j :: 0 <= j < |acts| && IsStart(acts[j], at)
  }

  predicate IsStart(a: Action, at: int) { a.Start? && a.now == at }

  lemma {:induction false} LatestIsReached(acts: seq<Action>, bound: int)
    requires 0 <= bound && forall j :: 0 <= j < |acts| ==> Reading(acts[j]) <= bound
    ensures Latest(acts) <= bound
  {
    if acts != [] {
      LatestIsReached(acts[..|acts| - 1], bound);
    }
  }

  /** What remembers that a room was asked about at a time: a later attempt, a visible profile, or the time passed. */
  ghost predicate Remembers(s: State, room: RoomId, at: int, latest: int)
  {
    || (room in s.attempts && s.attempts[room] >= at)
    || (room in s.profiles && HasVisibleData(s.profiles[room].profile) && s.profiles[room].lastSeen >= at - SKEW)
    || latest - at >= COOLDOWN
  }

  ghost predicate IsInFlight(s: State, i: nat) { s.inFlight.Some? && i + 1 == |s.sent| }

  /** A fetch that did not panic is remembered; the last one may still be in flight. */
  ghost predicate RememberedAt(s: State, i: nat, latest: int)
    requires i < |s.sent|
  {
    s.sent[i].panicked || IsInFlight(s, i) || Remembers(s, s.sent[i].room, s.sent[i].at, latest)
  }

  ghost predicate AllRemembered(s: State, latest: int)
  {
    && (s.inFlight.Some? ==> s.sent != [] && s.sent[|s.sent| - 1].room == s.inFlight.value
                             && !s.sent[|s.sent| - 1].panicked)
    && forall i :: 0 <= i < |s.sent| ==> RememberedAt(s, i, latest)
  }

  /** Two fetches of one room are at least the cooldown apart unless the earlier one panicked. */
  ghost predicate SpacedOut(sent: seq<Sent>)
  {
    forall i, j | 0 <= i < j < |sent| && sent[i].room == sent[j].room && !sent[i].panicked ::
      sent[j].at - sent[i].at >= COOLDOWN
  }

  ghost predicate NoneLaterThan(sent: seq<Sent>, time: int) { forall i :: 0 <= i < |sent| ==> sent[i].at <= time }

  /** Pruning with a reading at hand forgets only what that reading finds old enough. */
  lemma NoteRemembers(s: State, src: map<RoomId, Option<Profile>>, room: RoomId, at: int, latest: int, now: int)
    requires AllVisible(s) && Remembers(s, room, at, latest) && at - SKEW <= now
    ensures Remembers(Note(s, src, now), room, at, if now > latest then now else latest)
  {
    if src != map[] {
      NotedAt(s.profiles, src, room, now);
      if room in s.profiles && IsNote(src, room) {
        MergeIsMonotone(s.profiles[room].profile, src[room].value);
      }
    }
  }

  lemma SyncKeepsSpacing(s: State, src: map<RoomId, Option<Profile>>, latest: int, now: int)
    requires AllVisible(s) && AllRemembered(s, latest) && NoneLaterThan(s.sent, now + SKEW)
    ensures AllRemembered(Note(s, src, now), if now > latest then now else latest)
  {
    var s', latest' := Note(s, src, now), if now > latest then now else latest;
    forall i | 0 <= i < |s.sent|
      ensures RememberedAt(s', i, latest')
    {
      assert RememberedAt(s, i, latest);
      if !s.sent[i].panicked && !IsInFlight(s, i) {
        NoteRemembers(s, src, s.sent[i].room, s.sent[i].at, latest, now);
      }
    }
  }

  lemma StartKeepsSpacing(s: State, room: RoomId, latest: int, now: int, haveClient: bool)
    requires s.inFlight.None? && AllRemembered(s, latest) && latest <= now && SpacedOut(s.sent)
    ensures var s' := Begin(s, room, now, haveClient); AllRemembered(s', now) && SpacedOut(s'.sent)
  {
    var s' := Begin(s, room, now, haveClient);
    forall i | 0 <= i < |s.sent|
      ensures RememberedAt(s', i, now)
      ensures s' != s && s.sent[i].room == room && !s.sent[i].panicked ==> now - s.sent[i].at >= COOLDOWN
    {
      assert RememberedAt(s, i, latest);
    }
    if s' != s {
      assert s'.sent[..|s.sent|] == s.sent;
    }
  }

  /** Recording the failed attempt remembers the fetch that was in flight. */
  lemma FailureKeepsSpacing(s: State, latest: int, now: int, noted: int)
    requires s.inFlight.Some? && AllRemembered(s, latest) && NoneLaterThan(s.sent, now)
    ensures AllRemembered(Finish(s, Failed, now, noted), if noted > latest then noted else latest)
  {
    var s', latest' := Finish(s, Failed, now, noted), if noted > latest then noted else latest;
    forall i | 0 <= i < |s.sent|
      ensures RememberedAt(s', i, latest')
    {
      assert RememberedAt(s, i, latest);
    }
  }

  /** A noted summary remembers it by the profile itself. */
  lemma SummaryKeepsSpacing(s: State, p: Profile, latest: int, now: int, noted: int)
    requires s.inFlight.Some? && AllVisible(s) && HasVisibleData(p)
    requires AllRemembered(s, latest) && NoneLaterThan(s.sent, now) && now <= noted
    ensures AllRemembered(Finish(s, Outcome.Summary(p), now, noted), if noted > latest then noted else latest)
  {
    var room, src := s.inFlight.value, map[s.inFlight.value := Some(p)];
    var t, s' := s.(inFlight := None), Finish(s, Outcome.Summary(p), now, noted);
    var latest' := if noted > latest then noted else latest;
    assert s' == Note(t, src, noted);
    SummaryIsCached(t, room, p, noted);
    forall i | 0 <= i < |s.sent|
      ensures RememberedAt(s', i, latest')
    {
      assert RememberedAt(s, i, latest);
      if !s.sent[i].panicked && !IsInFlight(s, i) {
        NoteRemembers(t, src, s.sent[i].room, s.sent[i].at, latest, noted);
      }
    }
  }

  lemma SummaryIsCached(s: State, room: RoomId, p: Profile, now: int)
    requires AllVisible(s) && HasVisibleData(p)
    ensures var ps := Note(s, map[room := Some(p)], now).profiles;
            room in ps && HasVisibleData(ps[room].profile) && ps[room].lastSeen == now
  {
    var src := map[room := Some(p)];
    NotedIsVisible(s.profiles, src, now);
    NotedAt(s.profiles, src, room, now);
  }

  /** A panic is the exception the spacing allows for. */
  lemma PanicKeepsSpacing(s: State, latest: int, now: int, noted: int)
    requires s.inFlight.Some? && AllRemembered(s, latest) && SpacedOut(s.sent)
    ensures var s' := Finish(s, Panicked, now, noted);
            AllRemembered(s', if noted > latest then noted else latest) && SpacedOut(s'.sent)
  {
    var s', latest' := Finish(s, Panicked, now, noted), if noted > latest then noted else latest;
    forall i | 0 <= i < |s.sent|
      ensures RememberedAt(s', i, latest')
    {
      assert RememberedAt(s, i, latest);
    }
  }

  lemma FinishKeepsSpacing(s: State, o: Outcome, latest: int, now: int, noted: int)
    requires s.inFlight.Some? && s.sent != [] && AllVisible(s)
    requires AllRemembered(s, latest) && NoneLaterThan(s.sent, now) && now <= noted && SpacedOut(s.sent)
    ensures var s' := Finish(s, o, now, noted);
            AllRemembered(s', if noted > latest then noted else latest) && SpacedOut(s'.sent)
  {
    match o {
      case Failed => FailureKeepsSpacing(s, latest, now, noted);
      case Summary(p) =>
        if HasVisibleData(p) {
          SummaryKeepsSpacing(s, p, latest, now, noted);
        } else {
          FailureKeepsSpacing(s, latest, now, noted);
        }
      case Panicked => PanicKeepsSpacing(s, latest, now, noted);
    }
  }

  /** Every request was sent by a start of the run. */
  ghost predicate AllStarted(acts: seq<Action>, sent: seq<Sent>)
  {
    forall i :: 0 <= i < |sent| ==> StartedAt(acts, sent[i].at)
  }

  lemma StartsRemain(acts: seq<Action>, a: Action, sent: seq<Sent>)
    requires AllStarted(acts, sent)
    ensures AllStarted(acts + [a], sent)
    ensures a.Start? ==> StartedAt(acts + [a], a.now)
  {
    var all := acts + [a];
    forall i | 0 <= i < |sent|
      ensures StartedAt(all, sent[i].at)
    {
      var j :| 0 <= j < |acts| && IsStart(acts[j], sent[i].at);
      assert IsStart(all[j], sent[i].at);
    }
    assert a.Start? ==> IsStart(all[|acts|], a.now);
  }

  lemma StepKeepsStarted(s: State, acts: seq<Action>, a: Action)
    requires Enabled(s, a) && AllStarted(acts, s.sent)
    ensures AllStarted(acts + [a], Apply(s, a).sent)
  {
    StartsRemain(acts, a, s.sent);
  }

  /** The action's readings are no older than the clock allows, given the fetches sent and the latest reading. */
  ghost predicate IsTimely(sent: seq<Sent>, latest: int, a: Action)
  {
    match a
    case Sync(_, now) => NoneLaterThan(sent, now + SKEW)
    case Start(_, now, _) => latest <= now
    case Done(_, now, noted) => NoneLaterThan(sent, now) && now <= noted
    case _ => true
  }

  lemma SentBounds(acts: seq<Action>, a: Action, sent: seq<Sent>)
    requires ClockRuns(acts + [a]) && AllStarted(acts, sent)
    ensures IsTimely(sent, Latest(acts), a)
  {
    var all := acts + [a];
    assert all[|acts|] == a;
    forall i | 0 <= i < |sent|
      ensures a.Sync? ==> sent[i].at <= a.now + SKEW
      ensures a.Done? ==> sent[i].at <= a.now
    {
      var j :| 0 <= j < |acts| && IsStart(acts[j], sent[i].at);
      assert all[j] == acts[j];
    }
    if a.Start? {
      forall j | 0 <= j < |acts|
        ensures Reading(acts[j]) <= a.now
      {
        assert all[j] == acts[j];
      }
      LatestIsReached(acts, a.now);
    }
  }

  lemma ClockRan(acts: seq<Action>, k: nat)
    requires ClockRuns(acts) && k < |acts|
    ensures ClockRuns(acts[..k]) && acts[..k + 1] == acts[..k] + [acts[k]]
    ensures Latest(acts[..k + 1])
         == if Reading(acts[k]) > Latest(acts[..k]) then Reading(acts[k]) else Latest(acts[..k])
  {
    assert acts[..k + 1][..k] == acts[..k];
  }

  /** One timely action keeps the fetches remembered and spaced out. */
  lemma StepKeepsSpacing(s: State, a: Action, latest: int)
    requires Enabled(s, a) && !a.Load? && !a.Rebind? && IsTimely(s.sent, latest, a)
    requires AllVisible(s) && SpacedOut(s.sent) && AllRemembered(s, latest)
    ensures SpacedOut(Apply(s, a).sent)
    ensures AllRemembered(Apply(s, a), if Reading(a) > latest then Reading(a) else latest)
  {
    match a {
      case Sync(src, now) => SyncKeepsSpacing(s, src, latest, now);
      case Start(room, now, haveClient) => StartKeepsSpacing(s, room, latest, now, haveClient);
      case Done(o, now, noted) => FinishKeepsSpacing(s, o, latest, now, noted);
    }
  }

  /** In every run from a fresh cache, whether fetches fail, come back empty, or succeed and are pruned later. */
  lemma {:induction false} FetchesAreSpacedOut(acts: seq<Action>, states: seq<State>, k: nat)
    requires IsRun(FRESH, acts, states) && ClockRuns(acts) && OneServer(acts) && k < |states|
    ensures AllVisible(states[k]) && SpacedOut(states[k].sent)
    ensures AllStarted(acts[..k], states[k].sent) && AllRemembered(states[k], Latest(acts[..k]))
  {
    if k > 0 {
      var s, a, init := states[k - 1], acts[k - 1], acts[..k - 1];
      FetchesAreSpacedOut(acts, states, k - 1);
      assert StepsAt(acts, states, k - 1);
      ClockRan(acts, k - 1);
      PrefixClock(acts, k);
      SentBounds(init, a, s.sent);
      StepKeepsVisible(s, a);
      StepKeepsStarted(s, init, a);
      StepKeepsSpacing(s, a, Latest(init));
    }
  }

  lemma PrefixClock(acts: seq<Action>, k: nat)
    requires ClockRuns(acts) && k <= |acts|
    ensures ClockRuns(acts[..k])
  {
  }

  /**
    What one fetch leaves behind, whatever the cache held: within the cooldown of its end the room may be fetched
    again if and only if handling the answer panicked.
   */
  lemma PanicForgetsFetch(s: State, room: RoomId, start: int, o: Outcome, now: int, noted: int, later: int)
    requires s.inFlight.None? && AllVisible(s) && MayFetch(s, room, start)
    requires start <= now <= noted <= later < now + COOLDOWN
    ensures MayFetch(Finish(Begin(s, room, start, true), o, now, noted), room, later) <==> o.Panicked?
  {
    var t := Begin(s, room, start, true).(inFlight := None);
    if o.Summary? && HasVisibleData(o.profile) {
      SummaryIsCached(t, room, o.profile, noted);
    }
  }

  /** The skew cannot be larger: a reading older by one nanosecond more exposes the room to a prune too early. */
  lemma StaleSyncForgetsFetch(room: RoomId, other: RoomId, p: Profile)
    requires room != other && HasVisibleData(p)
    ensures var t := SKEW + 2;
            var s1 := Begin(FRESH, room, t, true);
            var s2 := Finish(s1, Outcome.Summary(p), t, t);
            var s3 := Note(s2, map[room := Some(p)], t - SKEW - 1);
            var s4 := Note(s3, map[other := Some(p)], t + COOLDOWN - 1);
            s1.sent == [Sent(room, t, false)] && MayFetch(s4, room, t + COOLDOWN - 1)
  {
    var t, src := SKEW + 2, map[room := Some(p)];
    var s2 := Finish(Begin(FRESH, room, t, true), Outcome.Summary(p), t, t);
    var s3 := Note(s2, src, t - SKEW - 1);
    NotedAt(map[], src, room, t);
    assert s2.profiles[room].lastSeen == t;
    NotedAt(s2.profiles, src, room, t - SKEW - 1);
    assert s3.profiles[room].lastSeen == t - SKEW - 1;
    var late, x := map[other := Some(p)], t + COOLDOWN - 1;
    NotedAt(s3.profiles, late, room, x);
    assert Noted(s3.profiles, late, x)[room].lastSeen == t - SKEW - 1;
    assert other in late;
    assert room !in Note(s3, late, x).profiles;
    assert room !in Note(s3, late, x).attempts;
  }
}
