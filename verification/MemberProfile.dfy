/** The flat member cache: harvested attributes, fetch throttling and pruning. Times in nanoseconds. */
module MemberProfile {
  import opened CacheTimes
  import opened Options
  import opened RoomProfile
  import opened Sets

  type UserId = string

  datatype Member = Member(
    userId: UserId, displayName: Option<string>, avatarUrl: Option<string>, presence: string, statusMsg: string)

  predicate IsVisible(m: Member)
  {
    NonEmpty(m.displayName) || NonEmpty(m.avatarUrl) || m.presence != "" || m.statusMsg != ""
  }

  function MergeMember(p: Member, src: Member): Member
  {
    p.(displayName := if ShouldReplace(p.displayName, src.displayName) then src.displayName else p.displayName,
       avatarUrl := if ShouldReplace(p.avatarUrl, src.avatarUrl) then src.avatarUrl else p.avatarUrl,
       presence := if src.presence != "" then src.presence else p.presence,
       statusMsg := if src.statusMsg != "" then src.statusMsg else p.statusMsg)
  }

  class MemberAttributes {
    const userId: UserId
    var displayName: Option<string>
    var avatarUrl: Option<string>
    var presence: string
    var statusMsg: string

    function Value(): Member
      reads this
    {
      Member(userId, displayName, avatarUrl, presence, statusMsg)
    }

    constructor (m: Member)
      ensures Value() == m
    {
      userId, displayName, avatarUrl := m.userId, m.displayName, m.avatarUrl;
      presence, statusMsg := m.presence, m.statusMsg;
    }

    /** Unlike for rooms, a change is reported exactly when there is one. */
    method MergeFrom(src: Member) returns (changed: bool)
      modifies this
      ensures Value() == MergeMember(old(Value()), src)
      ensures changed <==> Value() != old(Value())
    {
      changed := false;
      if ShouldReplace(displayName, src.displayName) {
        displayName, changed := src.displayName, true;
      }
      if ShouldReplace(avatarUrl, src.avatarUrl) {
        avatarUrl, changed := src.avatarUrl, true;
      }
      if src.presence != "" && src.presence != presence {
        presence, changed := src.presence, true;
      }
      if src.statusMsg != "" && src.statusMsg != statusMsg {
        statusMsg, changed := src.statusMsg, true;
      }
    }
  }

  datatype Cached = Cached(member: Member, lastSeen: int)

  datatype State = State(members: map<UserId, Cached>, attempts: Times, seeded: Times)

  const FRESH: State := State(map[], map[], map[])

  predicate IsNoted(src: Option<Member>) { src.Some? && src.value.userId != "" && IsVisible(src.value) }

  function Note(s: State, src: Option<Member>, now: int): State
  {
    if !IsNoted(src) then s
    else
      var id := src.value.userId;
      var m := if id in s.members then MergeMember(s.members[id].member, src.value) else src.value;
      s.(members := s.members[id := Cached(m, now)])
  }

  predicate IsSaved(saved: map<UserId, Option<Cached>>, id: UserId)
  {
    id in saved && saved[id].Some? && IsVisible(saved[id].value.member)
  }

  /** Restored members take the place of cached ones. */
  function Restored(members: map<UserId, Cached>, saved: map<UserId, Option<Cached>>): map<UserId, Cached>
  {
    members + map id | id in saved && IsSaved(saved, id) :: saved[id].value
  }

  function Recent(members: map<UserId, Cached>, now: int): map<UserId, Cached>
  {
    map id | id in members && now - members[id].lastSeen <= TTL :: members[id]
  }

  function Prune(s: State, now: int): State
  {
    State(Recent(s.members, now), Young(s.attempts, now), Young(s.seeded, now))
  }

  predicate Allowed(s: State, id: UserId, now: int)
  {
    id in s.attempts ==> now - s.attempts[id] >= COOLDOWN
  }

  class MemberCache {
    var members: map<UserId, Cached>
    var attempts: Times
    var seeded: Times

    function Value(): State
      reads this
    {
      State(members, attempts, seeded)
    }

    constructor ()
      ensures Value() == FRESH
    {
      members, attempts, seeded := map[], map[], map[];
    }

    method NoteMember(src: Option<Member>, now: int)
      modifies this`members
      ensures Value() == Note(old(Value()), src, now)
    {
      if src.None? || src.value.userId == "" || !IsVisible(src.value) {
        return;
      }
      var id := src.value.userId;
      if id in members {
        var dp := new MemberAttributes(members[id].member);
        var _ := dp.MergeFrom(src.value);
        members := members[id := Cached(dp.Value(), now)];
      } else {
        members := members[id := Cached(src.value, now)];
      }
    }

    /** Records the attempt when it is allowed, so that even an empty answer throttles. */
    method MemberAttemptAllowed(id: UserId, now: int) returns (ok: bool)
      modifies this`attempts
      ensures ok <==> (id in old(attempts) ==> now - old(attempts)[id] >= COOLDOWN)
      ensures attempts == if ok then old(attempts)[id := now] else old(attempts)
    {
      if id in attempts && now - attempts[id] < COOLDOWN {
        return false;
      }
      attempts := attempts[id := now];
      ok := true;
    }

    method RestoreMembers(saved: map<UserId, Option<Cached>>)
      modifies this`members
      ensures Value() == old(Value()).(members := Restored(old(members), saved))
      ensures forall id :: id in members <==> id in old(members) || IsSaved(saved, id)
      ensures forall id <- members ::
                members[id] == if IsSaved(saved, id) then saved[id].value else old(members)[id]
    {
      ghost var before := members;
      var rest := saved.Keys;
      while rest != {}
        invariant rest <= saved.Keys
        invariant forall id :: id in members <==> id in before || (IsSaved(saved, id) && id !in rest)
        invariant forall id <- members ::
                    members[id] == if IsSaved(saved, id) && id !in rest then saved[id].value else before[id]
        decreases rest
      {
        var id := TakeAny(rest);
        rest := rest - {id};
        if saved[id].Some? && IsVisible(saved[id].value.member) {
          members := members[id := saved[id].value];
        }
      }
      assert members == Restored(before, saved);
    }

    /** Binding to another home server forgets everything. */
    method BindMembers(sameHost: bool)
      modifies this
      ensures Value() == if sameHost then old(Value()) else FRESH
    {
      if !sameHost {
        members, attempts, seeded := map[], map[], map[];
      }
    }

    method PruneMembers(now: int)
      modifies this
      ensures Value() == Prune(old(Value()), now)
      ensures KeepsRecent(old(members), members, now)
      ensures KeepsYoung(old(attempts), attempts, now) && KeepsYoung(old(seeded), seeded, now)
    {
      members := PruneSeen(members, now);
      attempts := PruneTimes(attempts, now);
      seeded := PruneTimes(seeded, now);
    }
  }

  /** What pruning leaves: exactly the members seen recently, unchanged. */
  ghost predicate KeepsRecent(before: map<UserId, Cached>, after: map<UserId, Cached>, now: int)
  {
    && (forall id :: id in after <==> id in before && now - before[id].lastSeen <= TTL)
    && (forall id <- after :: after[id] == before[id])
  }

  method PruneSeen(members: map<UserId, Cached>, now: int) returns (kept: map<UserId, Cached>)
    ensures kept == Recent(members, now) && KeepsRecent(members, kept, now)
  {
    kept := DeleteUnless(members, (c: Cached) => now - c.lastSeen <= TTL);
  }

  // ---- the last non-empty value wins, until the member is forgotten ----

  /** A harvested profile, a prune, a restore from the state file, or another home server. */
  datatype Event =
    | Harvest(src: Option<Member>, at: int)
    | Forget(now: int)
    | Load(saved: map<UserId, Option<Cached>>)
    | Rebind

  function Handle(s: State, e: Event): State
  {
    match e
    case Harvest(src, at) => Note(s, src, at)
    case Forget(now) => Prune(s, now)
    case Load(saved) => s.(members := Restored(s.members, saved))
    case Rebind => FRESH
  }

  function HandleAll(events: seq<Event>): State
  {
    if events == [] then FRESH else Handle(HandleAll(events[..|events| - 1]), events[|events| - 1])
  }

  datatype Field = Name | Avatar | Presence | Status

  function Get(m: Member, f: Field): string
  {
    match f
    case Name => Text(m.displayName)
    case Avatar => Text(m.avatarUrl)
    case Presence => m.presence
    case Status => m.statusMsg
  }

  /** A harvest or a restore that shows something of the user. */
  predicate Mentions(e: Event, id: UserId)
  {
    match e
    case Harvest(src, _) => IsNoted(src) && src.value.userId == id
    case Load(saved) => IsSaved(saved, id)
    case _ => false
  }

  /** When the user was seen that an event mentions. */
  function MentionedAt(e: Event, id: UserId): int
    requires Mentions(e, id)
  {
    if e.Harvest? then e.at else e.saved[id].value.lastSeen
  }

  /** What the event gives for a field. */
  function Given(e: Event, id: UserId, f: Field): string
    requires Mentions(e, id)
  {
    Get(if e.Harvest? then e.src.value else e.saved[id].value.member, f)
  }

  /** The event makes the cache forget a user seen at a time. */
  predicate Forgets(e: Event, at: int) { e.Rebind? || (e.Forget? && e.now - at > TTL) }

  /** The time of a user's last mention, unless the user was forgotten since. */
  function LastSeen(events: seq<Event>, id: UserId): Option<int>
  {
    if events == [] then None
    else
      var before, e := LastSeen(events[..|events| - 1], id), events[|events| - 1];
      if Mentions(e, id) then Some(MentionedAt(e, id))
      else if before.Some? && Forgets(e, before.value) then None
      else before
  }

  /** The last non-empty value given for a field since the user was last forgotten; a restore replaces it. */
  function LastGiven(events: seq<Event>, id: UserId, f: Field): string
  {
    if events == [] then ""
    else
      var init, e := events[..|events| - 1], events[|events| - 1];
      if Mentions(e, id) && (e.Load? || Given(e, id, f) != "") then Given(e, id, f)
      else if LastSeen(events, id).None? then ""
      else LastGiven(init, id, f)
  }

  lemma MergeField(p: Member, src: Member, f: Field)
    ensures Get(MergeMember(p, src), f) == if Get(src, f) != "" then Get(src, f) else Get(p, f)
    ensures Get(src, f) != "" ==> IsVisible(src)
  {
  }

  /** For every history: who is cached, since when, and each field's value. */
  lemma {:induction false} FieldsAreLastNonEmpty(events: seq<Event>, id: UserId, f: Field)
    ensures var s := HandleAll(events);
            && (id in s.members <==> LastSeen(events, id).Some?)
            && (id in s.members ==> s.members[id].lastSeen == LastSeen(events, id).value)
            && LastGiven(events, id, f) == if id in s.members then Get(s.members[id].member, f) else ""
  {
    if events != [] {
      var init, e := events[..|events| - 1], events[|events| - 1];
      FieldsAreLastNonEmpty(init, id, f);
      if Mentions(e, id) && e.Harvest? {
        var s := HandleAll(init);
        MergeField(if id in s.members then s.members[id].member else e.src.value, e.src.value, f);
      }
    }
  }

  /** No later event mentions the user. */
  ghost predicate IsLastMention(events: seq<Event>, i: nat, id: UserId)
    requires i < |events|
  {
    Mentions(events[i], id) && forall j :: i < j < |events| ==> !Mentions(events[j], id)
  }

  /** A later event makes the cache forget what event i mentioned. */
  ghost predicate ForgottenAfter(events: seq<Event>, i: nat, id: UserId)
    requires i < |events| && Mentions(events[i], id)
  {
    exists j :: i < j < |events| && Forgets(events[j], MentionedAt(events[i], id))
  }

  ghost predicate Lasts(events: seq<Event>, i: nat, id: UserId)
    requires i < |events|
  {
    IsLastMention(events, i, id) && !ForgottenAfter(events, i, id)
  }

  /** Hence a user is cached exactly when the last mention has been neither swept nor left behind on another server. */
  lemma {:induction false} CachedIffNotSwept(events: seq<Event>, id: UserId)
    ensures LastSeen(events, id).Some? <==> exists i :: 0 <= i < |events| && Lasts(events, i, id)
    ensures forall i :: 0 <= i < |events| && Lasts(events, i, id) ==>
              LastSeen(events, id) == Some(MentionedAt(events[i], id))
  {
    if events != [] {
      var n := |events| - 1;
      var init, e := events[..n], events[n];
      CachedIffNotSwept(init, id);
      if Mentions(e, id) {
        assert Lasts(events, n, id);
      } else {
        forall i | 0 <= i < n
          ensures Lasts(events, i, id) <==> Lasts(init, i, id) && !Forgets(e, MentionedAt(events[i], id))
        {
          LastsInPrefix(events, i, id);
        }
        if i :| 0 <= i < n && Lasts(init, i, id) {
          assert LastSeen(init, id) == Some(MentionedAt(init[i], id));
        }
      }
    }
  }

  lemma LastsInPrefix(events: seq<Event>, i: nat, id: UserId)
    requires i < |events| - 1 && !Mentions(events[|events| - 1], id)
    ensures var init, e := events[..|events| - 1], events[|events| - 1];
            Lasts(events, i, id) <==> Lasts(init, i, id) && !Forgets(e, MentionedAt(events[i], id))
  {
    var n := |events| - 1;
    var init := events[..n];
    if Mentions(events[i], id) {
      if ForgottenAfter(init, i, id) {
        var j :| i < j < n && Forgets(init[j], MentionedAt(init[i], id));
        assert Forgets(events[j], MentionedAt(events[i], id));
      }
      if Forgets(events[n], MentionedAt(events[i], id)) {
        assert ForgottenAfter(events, i, id);
      }
      assert forall j :: i < j < n ==> events[j] == init[j];
    }
  }

  // ---- throttling ----

  datatype Action = Try(id: UserId, now: int) | Sweep(now: int)

  function Apply(s: State, a: Action): State
  {
    match a
    case Try(id, now) => if Allowed(s, id, now) then s.(attempts := s.attempts[id := now]) else s
    case Sweep(now) => Prune(s, now)
  }

  function Run(acts: seq<Action>): State
  {
    if acts == [] then FRESH else Apply(Run(acts[..|acts| - 1]), acts[|acts| - 1])
  }

  /** Attempt k of the run was let through. */
  predicate LetThrough(acts: seq<Action>, k: nat)
    requires k < |acts|
  {
    acts[k].Try? && Allowed(Run(acts[..k]), acts[k].id, acts[k].now)
  }

  /** The clock does not run backwards; a sweep may work with a reading taken before other attempts. */
  ghost predicate Monotone(acts: seq<Action>)
  {
    forall i, j :: 0 <= i < j < |acts| && acts[j].Try? ==> acts[i].now <= acts[j].now
  }

  lemma {:induction false} AttemptIsRemembered(acts: seq<Action>, i: nat)
    requires Monotone(acts) && i < |acts| && LetThrough(acts, i)
    ensures var s := Run(acts);
            || (acts[i].id in s.attempts && s.attempts[acts[i].id] >= acts[i].now)
            || exists k :: 0 <= k < |acts| && acts[k].now - acts[i].now > TTL
  {
    var init := acts[..|acts| - 1];
    if i == |acts| - 1 {
    } else {
      assert init[..i] == acts[..i];
      AttemptIsRemembered(init, i);
      if k :| 0 <= k < |init| && init[k].now - acts[i].now > TTL {
        assert acts[k].now - acts[i].now > TTL;
      }
    }
  }

  lemma {:induction false} AttemptWasLetThrough(acts: seq<Action>, id: UserId)
    requires id in Run(acts).attempts
    ensures exists i :: 0 <= i < |acts| && LetThrough(acts, i) && acts[i] == Try(id, Run(acts).attempts[id])
  {
    var n := |acts| - 1;
    var init := acts[..n];
    if acts[n].Try? && acts[n].id == id && Allowed(Run(init), id, acts[n].now) {
      assert LetThrough(acts, n);
    } else {
      AttemptWasLetThrough(init, id);
      var i :| 0 <= i < n && LetThrough(init, i) && init[i] == Try(id, Run(init).attempts[id]);
      assert init[..i] == acts[..i];
      assert LetThrough(acts, i);
    }
  }

  /** Two fetch attempts for the same user are let through at least the cooldown apart, prunes or not. */
  lemma AttemptsAreSpacedOut(acts: seq<Action>, i: nat, j: nat)
    requires Monotone(acts) && i < j < |acts| && LetThrough(acts, i) && LetThrough(acts, j) && acts[i].id == acts[j].id
    ensures acts[j].now - acts[i].now >= COOLDOWN
  {
    var before := acts[..j];
    assert before[..i] == acts[..i];
    AttemptIsRemembered(before, i);
  }

  /** And an attempt is turned away only for one let through within the cooldown before it. */
  lemma LetThroughIff(acts: seq<Action>, k: nat)
    requires Monotone(acts) && k < |acts| && acts[k].Try?
    ensures LetThrough(acts, k) <==>
            forall i | 0 <= i < k && LetThrough(acts, i) && acts[i].id == acts[k].id ::
              acts[k].now - acts[i].now >= COOLDOWN
  {
    var before := acts[..k];
    if LetThrough(acts, k) {
      forall i | 0 <= i < k && LetThrough(acts, i) && acts[i].id == acts[k].id
        ensures acts[k].now - acts[i].now >= COOLDOWN
      {
        AttemptsAreSpacedOut(acts, i, k);
      }
    } else {
      AttemptWasLetThrough(before, acts[k].id);
      var i :| 0 <= i < k && LetThrough(before, i) && before[i] == Try(acts[k].id, Run(before).attempts[acts[k].id]);
      assert before[..i] == acts[..i];
      assert LetThrough(acts, i);
    }
  }
}
