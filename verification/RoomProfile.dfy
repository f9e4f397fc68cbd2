/** Room attributes: the fold of state events, the sliding-sync summary, the merge, and the published projection. */
module RoomProfile {
  import opened Options

  type Quality = q: int | q == 0 || q == 2 || q == 3

  const NIL_NAME: Quality := 0
  const CANONICAL_ALIAS: Quality := 2
  const EXPLICIT: Quality := 3

  /** An absent string was never supplied; an empty one was explicitly cleared. */
  datatype Profile = Profile(
    name: Option<string>, quality: Quality, avatar: Option<string>, explicitAvatar: bool,
    topic: Option<string>, alias: Option<string>, roomType: string, roomVersion: string,
    federated: Option<bool>, memberCount: int)

  const BLANK: Profile := Profile(None, NIL_NAME, None, false, None, None, "", "", None, 0)

  datatype EventType = CreateEvent | NameEvent | AliasEvent | AvatarEvent | TopicEvent | OtherEvent

  /** The content fields looked at; a missing or ill-typed string reads as empty. */
  datatype Content = Content(
    roomType: string, roomVersion: string, federate: Option<bool>,
    name: string, alias: string, url: string, topic: string)

  datatype StateEvent = StateEvent(kind: EventType, stateKey: string, content: Content)

  predicate NonEmpty(s: Option<string>) { s.Some? && s.value != "" }

  // ---- the fold of state events ----

  function ApplyName(p: Profile, name: string, q: Quality): Profile
  {
    if name != "" then p.(name := Some(name), quality := q)
    else if NonEmpty(p.alias) then p.(name := p.alias, quality := CANONICAL_ALIAS)
    else p.(name := None, quality := NIL_NAME)
  }

  function ApplyAlias(p: Profile, alias: string): Profile
  {
    var p1 := p.(alias := Some(alias));
    if p.quality > CANONICAL_ALIAS then p1
    else if alias == "" then p1.(name := None, quality := NIL_NAME)
    else p1.(name := Some(alias), quality := CANONICAL_ALIAS)
  }

  predicate IsRoomLevel(e: StateEvent) { e.stateKey == "" && e.kind != OtherEvent }

  function ApplyEvent(p: Profile, e: StateEvent): Profile
  {
    if e.stateKey != "" then p
    else
      match e.kind
      case CreateEvent =>
        p.(roomType := if e.content.roomType != "" then e.content.roomType else p.roomType,
           roomVersion := if e.content.roomVersion != "" then e.content.roomVersion else p.roomVersion,
           federated := if e.content.federate.Some? then e.content.federate else p.federated)
      case NameEvent => ApplyName(p, e.content.name, EXPLICIT)
      case AliasEvent => ApplyAlias(p, e.content.alias)
      case AvatarEvent => p.(avatar := Some(e.content.url), explicitAvatar := true)
      case TopicEvent => p.(topic := Some(e.content.topic))
      case OtherEvent => p
  }

  function Fold(evs: seq<StateEvent>): Profile
  {
    if evs == [] then BLANK else ApplyEvent(Fold(evs[..|evs| - 1]), evs[|evs| - 1])
  }

  // ---- the merge ----

  predicate ShouldReplace(old_: Option<string>, next: Option<string>)
  {
    NonEmpty(next) && (old_.None? || old_.value != next.value)
  }

  function MergedTexts(p: Profile, src: Profile): Profile
  {
    var takesName := ShouldReplace(p.name, src.name) && src.quality >= p.quality;
    var takesAvatar := ShouldReplace(p.avatar, src.avatar);
    p.(name := if takesName then src.name else p.name,
       quality := if takesName then src.quality else p.quality,
       avatar := if takesAvatar then src.avatar else p.avatar,
       explicitAvatar := if takesAvatar then src.explicitAvatar else p.explicitAvatar,
       topic := if ShouldReplace(p.topic, src.topic) then src.topic else p.topic,
       alias := if ShouldReplace(p.alias, src.alias) then src.alias else p.alias)
  }

  function Merge(p: Profile, src: Profile): Profile
  {
    MergedTexts(p, src).(
      roomType := if src.roomType != "" then src.roomType else p.roomType,
      roomVersion := if src.roomVersion != "" then src.roomVersion else p.roomVersion,
      federated := if src.federated.Some? then src.federated else p.federated,
      memberCount := if src.memberCount > 0 then src.memberCount else p.memberCount)
  }

  /** Attributes whose mere presence in the source counts as a change. */
  predicate AlwaysCounts(src: Profile)
  {
    src.roomType != "" || src.roomVersion != "" || src.federated.Some? || src.memberCount > 0
  }

  predicate HasVisibleData(p: Profile)
  {
    NonEmpty(p.name) || NonEmpty(p.avatar) || NonEmpty(p.topic) || NonEmpty(p.alias) ||
    p.roomType != "" || p.roomVersion != "" || p.memberCount > 0 || p.federated.Some?
  }

  function ApplySliding(p: Profile, name: Option<string>, avatar: Option<string>, topic: Option<string>,
                        joined: Option<int>): Profile
  {
    var named := p.quality < EXPLICIT && NonEmpty(name);
    var pictured := p.avatar.None? && avatar.Some?;
    p.(name := if named then name else p.name,
       quality := if named then EXPLICIT else p.quality,
       avatar := if pictured then avatar else p.avatar,
       explicitAvatar := pictured || p.explicitAvatar,
       topic := if p.topic.None? then topic else p.topic,
       memberCount := if joined.Some? && joined.value > 0 then joined.value else p.memberCount)
  }

  /** A profile object, updated in place by events and merges. */
  class RoomAttributes {
    var name: Option<string>
    var quality: Quality
    var avatar: Option<string>
    var explicitAvatar: bool
    var topic: Option<string>
    var alias: Option<string>
    var roomType: string
    var roomVersion: string
    var federated: Option<bool>
    var memberCount: int

    function Value(): Profile
      reads this
    {
      Profile(name, quality, avatar, explicitAvatar, topic, alias, roomType, roomVersion, federated, memberCount)
    }

    constructor ()
      ensures Value() == BLANK
    {
      name, quality, avatar, explicitAvatar, topic, alias := None, NIL_NAME, None, false, None, None;
      roomType, roomVersion, federated, memberCount := "", "", None, 0;
    }

    method SetName(s: string, q: Quality)
      modifies this`name, this`quality
      ensures Value() == ApplyName(old(Value()), s, q)
    {
      if s != "" {
        name, quality := Some(s), q;
        return;
      }
      if alias.Some? && alias.value != "" {
        name, quality := Some(alias.value), CANONICAL_ALIAS;
        return;
      }
      name, quality := None, NIL_NAME;
    }

    method SetAlias(s: string)
      modifies this`name, this`quality, this`alias
      ensures Value() == ApplyAlias(old(Value()), s)
    {
      alias := Some(s);
      if s == "" {
        if quality <= CANONICAL_ALIAS {
          name, quality := None, NIL_NAME;
        }
        return;
      }
      if quality <= CANONICAL_ALIAS {
        name, quality := Some(s), CANONICAL_ALIAS;
      }
    }

    method ApplyStateEvent(e: StateEvent) returns (applied: bool)
      modifies this
      ensures Value() == ApplyEvent(old(Value()), e)
      ensures applied <==> IsRoomLevel(e)
    {
      if e.stateKey != "" {
        return false;
      }
      match e.kind {
        case CreateEvent =>
          if e.content.roomType != "" {
            roomType := e.content.roomType;
          }
          if e.content.roomVersion != "" {
            roomVersion := e.content.roomVersion;
          }
          if e.content.federate.Some? {
            federated := e.content.federate;
          }
        case NameEvent => SetName(e.content.name, EXPLICIT);
        case AliasEvent => SetAlias(e.content.alias);
        case AvatarEvent => avatar, explicitAvatar := Some(e.content.url), true;
        case TopicEvent => topic := Some(e.content.topic);
        case OtherEvent => return false;
      }
      applied := true;
    }

    method ApplySlidingSummary(n: Option<string>, a: Option<string>, t: Option<string>, joined: Option<int>)
      modifies this
      ensures Value() == ApplySliding(old(Value()), n, a, t, joined)
    {
      ghost var p := Value();
      if quality < EXPLICIT && n.Some? && n.value != "" {
        name, quality := n, EXPLICIT;
      }
      assert Value() == p.(name := ApplySliding(p, n, a, t, joined).name, quality := quality);
      assert quality == ApplySliding(p, n, a, t, joined).quality;
      if avatar.None? && a.Some? {
        avatar, explicitAvatar := a, true;
      }
      if topic.None? && t.Some? {
        topic := t;
      }
      if joined.Some? && joined.value > 0 {
        memberCount := joined.value;
      }
    }

    method MergeTexts(src: Profile) returns (changed: bool)
      modifies this`name, this`quality, this`avatar, this`explicitAvatar, this`topic, this`alias
      ensures Value() == MergedTexts(old(Value()), src)
      ensures changed <==> Value() != old(Value())
    {
      changed := false;
      if ShouldReplace(name, src.name) && src.quality >= quality {
        name, quality, changed := src.name, src.quality, true;
      }
      if ShouldReplace(avatar, src.avatar) {
        avatar, explicitAvatar, changed := src.avatar, src.explicitAvatar, true;
      }
      if ShouldReplace(topic, src.topic) {
        topic, changed := src.topic, true;
      }
      if ShouldReplace(alias, src.alias) {
        alias, changed := src.alias, true;
      }
    }

    /** Reports a change exactly when the value changed or the source carries an attribute that always counts. */
    method MergeFrom(src: Profile) returns (changed: bool)
      modifies this
      ensures Value() == Merge(old(Value()), src)
      ensures changed <==> ReportsChange(old(Value()), src)
      ensures changed <==> Value() != old(Value()) || src.roomType != "" || src.roomVersion != ""
                           || src.federated.Some? || src.memberCount > 0
    {
      changed := MergeTexts(src);
      if src.roomType != "" {
        roomType, changed := src.roomType, true;
      }
      if src.roomVersion != "" {
        roomVersion, changed := src.roomVersion, true;
      }
      if src.federated.Some? {
        federated, changed := src.federated, true;
      }
      if src.memberCount > 0 {
        memberCount, changed := src.memberCount, true;
      }
    }
  }

  /** Folds decoded events; undecodable ones are skipped, and a batch that applies nothing gives no profile. */
  method ProfileFromStateEvents(raws: seq<Option<StateEvent>>) returns (r: Option<Profile>)
    ensures r == if exists e <- Decodable(raws) :: IsRoomLevel(e) then Some(Fold(Decodable(raws))) else None
  {
    var p := new RoomAttributes();
    var got := false;
    for i := 0 to |raws|
      invariant fresh(p)
      invariant p.Value() == Fold(Decodable(raws[..i]))
      invariant got <==> exists e <- Decodable(raws[..i]) :: IsRoomLevel(e)
    {
      assert raws[..i + 1][..i] == raws[..i];
      ghost var before := Decodable(raws[..i]);
      if raws[i].None? {
        assert Decodable(raws[..i + 1]) == before;
        continue;
      }
      assert Decodable(raws[..i + 1]) == before + [raws[i].value];
      FoldSnoc(before, raws[i].value);
      var applied := p.ApplyStateEvent(raws[i].value);
      if applied {
        got := true;
      }
    }
    assert raws[..|raws|] == raws;
    r := if got then Some(p.Value()) else None;
  }

  lemma FoldSnoc(evs: seq<StateEvent>, e: StateEvent)
    ensures Fold(evs + [e]) == ApplyEvent(Fold(evs), e)
  {
    assert (evs + [e])[..|evs|] == evs;
  }

  function Decodable(raws: seq<Option<StateEvent>>): seq<StateEvent>
  {
    if raws == [] then []
    else
      var last := raws[|raws| - 1];
      Decodable(raws[..|raws| - 1]) + if last.Some? then [last.value] else []
  }

  // ---- what a room is called ----

  /** The last room-level event of a kind. */
  function LastOf(evs: seq<StateEvent>, kind: EventType): Option<Content>
  {
    if evs == [] then None
    else if evs[|evs| - 1].stateKey == "" && evs[|evs| - 1].kind == kind then Some(evs[|evs| - 1].content)
    else LastOf(evs[..|evs| - 1], kind)
  }

  /** The last room name if it is not empty, else the last canonical alias if it is not empty, else none. */
  function Title(evs: seq<StateEvent>): (Option<string>, Quality)
  {
    var n, a := LastOf(evs, NameEvent), LastOf(evs, AliasEvent);
    if n.Some? && n.value.name != "" then (Some(n.value.name), EXPLICIT)
    else if a.Some? && a.value.alias != "" then (Some(a.value.alias), CANONICAL_ALIAS)
    else (None, NIL_NAME)
  }

  /** The incremental fold agrees with the declarative title for every order of events. */
  lemma {:induction false} FoldIsTitle(evs: seq<StateEvent>)
    ensures (Fold(evs).name, Fold(evs).quality) == Title(evs)
    ensures Fold(evs).alias == match LastOf(evs, AliasEvent) case Some(c) => Some(c.alias) case None => None
  {
    if evs != [] {
      FoldIsTitle(evs[..|evs| - 1]);
    }
  }

  /** Avatar and topic follow their last event, cleared or not. */
  lemma {:induction false} FoldIsLast(evs: seq<StateEvent>)
    ensures Fold(evs).avatar == match LastOf(evs, AvatarEvent) case Some(c) => Some(c.url) case None => None
    ensures Fold(evs).topic == match LastOf(evs, TopicEvent) case Some(c) => Some(c.topic) case None => None
    ensures Fold(evs).explicitAvatar <==> Fold(evs).avatar.Some?
    ensures Fold(evs).memberCount == 0
  {
    if evs != [] {
      FoldIsLast(evs[..|evs| - 1]);
    }
  }

  datatype CreateField = TypeField | VersionField

  function CreateText(c: Content, f: CreateField): string
  {
    match f
    case TypeField => c.roomType
    case VersionField => c.roomVersion
  }

  predicate IsCreate(e: StateEvent) { e.stateKey == "" && e.kind == CreateEvent }

  /** The last non-empty value a room-level create event gives for a field. */
  function LastCreated(evs: seq<StateEvent>, f: CreateField): string
  {
    if evs == [] then ""
    else
      var last := evs[|evs| - 1];
      if IsCreate(last) && CreateText(last.content, f) != "" then CreateText(last.content, f)
      else LastCreated(evs[..|evs| - 1], f)
  }

  /** The last federation flag a room-level create event gives. */
  function LastFederate(evs: seq<StateEvent>): Option<bool>
  {
    if evs == [] then None
    else
      var last := evs[|evs| - 1];
      if IsCreate(last) && last.content.federate.Some? then last.content.federate
      else LastFederate(evs[..|evs| - 1])
  }

  /** Room type, version and federation flag are the last ones supplied. */
  lemma {:induction false} FoldIsLastCreated(evs: seq<StateEvent>)
    ensures Fold(evs).roomType == LastCreated(evs, TypeField)
    ensures Fold(evs).roomVersion == LastCreated(evs, VersionField)
    ensures Fold(evs).federated == LastFederate(evs)
  {
    if evs != [] {
      FoldIsLastCreated(evs[..|evs| - 1]);
    }
  }

  datatype Summary = Summary(name: Option<string>, avatar: Option<string>, topic: Option<string>, joined: Option<int>)

  /** The sliding-sync profile: state events first, then the room-level summary; none when nothing was supplied. */
  method ProfileFromSlidingRoom(raws: seq<Option<StateEvent>>, s: Summary) returns (r: Option<Profile>)
    ensures r.None? <==> SuppliesNothing(Fold(Decodable(raws))) && s == Summary(None, None, None, None)
    ensures r.Some? ==> r.value == ApplySliding(Fold(Decodable(raws)), s.name, s.avatar, s.topic, s.joined)
  {
    var folded := ProfileFromStateEvents(raws);
    var p := if folded.Some? then folded.value else BLANK;
    if folded.None? {
      NothingApplied(Decodable(raws));
    }
    QualityNeedsName(Decodable(raws));
    if p.name.None? && p.avatar.None? && p.topic.None? && p.alias.None? && p.roomType == "" && p.roomVersion == ""
       && p.federated.None? && p.memberCount == 0
       && s.name.None? && s.avatar.None? && s.topic.None? && s.joined.None? {
      return None;
    }
    r := Some(ApplySliding(p, s.name, s.avatar, s.topic, s.joined));
  }

  predicate SuppliesNothing(p: Profile) { p == BLANK }

  lemma {:induction false} NothingApplied(evs: seq<StateEvent>)
    requires forall e <- evs :: !IsRoomLevel(e)
    ensures Fold(evs) == BLANK
  {
    if evs != [] {
      NothingApplied(evs[..|evs| - 1]);
      assert !IsRoomLevel(evs[|evs| - 1]);
    }
  }

  lemma QualityNeedsName(evs: seq<StateEvent>)
    ensures Fold(evs).name.None? <==> Fold(evs).quality == NIL_NAME
    ensures Fold(evs).explicitAvatar <==> Fold(evs).avatar.Some?
  {
    FoldIsTitle(evs);
    FoldIsLast(evs);
  }

  /** In a sliding room the server's name ranks between the explicit room name and the canonical alias. */
  lemma SlidingTitle(evs: seq<StateEvent>, s: Summary)
    ensures var p := ApplySliding(Fold(evs), s.name, s.avatar, s.topic, s.joined);
            (p.name, p.quality)
            == if Title(evs).1 == EXPLICIT then Title(evs)
               else if NonEmpty(s.name) then (s.name, EXPLICIT)
               else Title(evs)
  {
    FoldIsTitle(evs);
  }

  /** The summary's avatar and topic stand in where no state event set them; a positive count is always taken. */
  lemma SlidingFills(evs: seq<StateEvent>, s: Summary)
    ensures var p := ApplySliding(Fold(evs), s.name, s.avatar, s.topic, s.joined);
            && p.avatar == (match LastOf(evs, AvatarEvent) case Some(c) => Some(c.url) case None => s.avatar)
            && (p.explicitAvatar <==> p.avatar.Some?)
            && p.topic == (match LastOf(evs, TopicEvent) case Some(c) => Some(c.topic) case None => s.topic)
            && p.memberCount == if s.joined.Some? && s.joined.value > 0 then s.joined.value else 0
  {
    FoldIsLast(evs);
  }

  // ---- what merging keeps ----

  /** Every attribute published non-empty before is published non-empty after. */
  predicate KeepsPublished(p: Profile, p': Profile)
  {
    && (NonEmpty(p.name) ==> NonEmpty(p'.name)) && (NonEmpty(p.avatar) ==> NonEmpty(p'.avatar))
    && (NonEmpty(p.topic) ==> NonEmpty(p'.topic)) && (NonEmpty(p.alias) ==> NonEmpty(p'.alias))
    && (p.roomType != "" ==> p'.roomType != "") && (p.roomVersion != "" ==> p'.roomVersion != "")
    && (p.federated.Some? ==> p'.federated.Some?) && (p.memberCount > 0 ==> p'.memberCount > 0)
  }

  /** The recorded quality never falls, published attributes never vanish, and a name only yields to equal or better. */
  lemma MergeIsMonotone(p: Profile, src: Profile)
    ensures Merge(p, src).quality >= p.quality
    ensures KeepsPublished(p, Merge(p, src))
    ensures HasVisibleData(p) ==> HasVisibleData(Merge(p, src))
    ensures Merge(p, src).name != p.name ==> Merge(p, src).name == src.name && src.quality >= p.quality
  {
  }

  /** Merging takes every non-empty attribute but a worse name, and merging the same source again changes nothing. */
  lemma MergeTakesSource(p: Profile, src: Profile)
    ensures var m := Merge(p, src);
            && (NonEmpty(src.avatar) ==> m.avatar == src.avatar) && (NonEmpty(src.topic) ==> m.topic == src.topic)
            && (NonEmpty(src.alias) ==> m.alias == src.alias)
            && (src.roomType != "" ==> m.roomType == src.roomType)
            && (src.roomVersion != "" ==> m.roomVersion == src.roomVersion)
            && (src.federated.Some? ==> m.federated == src.federated)
            && (src.memberCount > 0 ==> m.memberCount == src.memberCount)
            && (NonEmpty(src.name) ==> (m.name == src.name <==> src.quality >= p.quality || src.name == p.name))
            && Merge(m, src) == m
  {
    var m := Merge(p, src);
    assert MergedTexts(m, src) == m;
  }

  /** What the source does not supply, or supplies under a worse name, stays; the flags follow what they describe. */
  ghost predicate KeepsRest(p: Profile, src: Profile, m: Profile)
  {
    && (!NonEmpty(src.name) || src.quality < p.quality ==> m.name == p.name)
    && m.quality == (if m.name != p.name then src.quality else p.quality)
    && (!NonEmpty(src.avatar) ==> m.avatar == p.avatar)
    && m.explicitAvatar == (if m.avatar != p.avatar then src.explicitAvatar else p.explicitAvatar)
    && (!NonEmpty(src.topic) ==> m.topic == p.topic) && (!NonEmpty(src.alias) ==> m.alias == p.alias)
    && (src.roomType == "" ==> m.roomType == p.roomType) && (src.roomVersion == "" ==> m.roomVersion == p.roomVersion)
    && (src.federated.None? ==> m.federated == p.federated)
    && (src.memberCount <= 0 ==> m.memberCount == p.memberCount)
  }

  /** With what is taken, this leaves a merge no freedom: it is the only profile that covers the source and keeps. */
  lemma MergeIsExact(p: Profile, src: Profile, m: Profile)
    ensures m == Merge(p, src) <==> KeepsRest(p, src, m) && Covers(m, src)
  {
    MergeKeepsRest(p, src);
    if KeepsRest(p, src, m) && Covers(m, src) {
      OnlyOneKeepsRest(p, src, m, Merge(p, src));
    }
  }

  lemma MergeKeepsRest(p: Profile, src: Profile)
    ensures KeepsRest(p, src, Merge(p, src)) && Covers(Merge(p, src), src)
  {
    MergeTakesSource(p, src);
  }

  lemma OnlyOneKeepsRest(p: Profile, src: Profile, m: Profile, n: Profile)
    requires KeepsRest(p, src, m) && Covers(m, src) && KeepsRest(p, src, n) && Covers(n, src)
    ensures m == n
  {
    assert m.name == n.name && m.avatar == n.avatar && m.topic == n.topic && m.alias == n.alias;
  }

  /**
    An explicit name just merged resists every later name of lower quality, unless the same name was already recorded
    at a lower quality: then the quality is not raised and an alias can take the explicit name's place.
   */
  lemma ExplicitNameIsKept(p: Profile, src: Profile)
    requires NonEmpty(src.name) && src.quality == EXPLICIT
    ensures (forall later: Profile :: later.quality < EXPLICIT ==> Merge(Merge(p, src), later).name == src.name)
            <==> !(p.name == src.name && p.quality < EXPLICIT)
  {
    if p.name == src.name && p.quality < EXPLICIT {
      var later := BLANK.(name := Some(src.name.value + "x"), quality := CANONICAL_ALIAS);
      assert later.name.value != src.name.value;
      assert Merge(Merge(p, src), later).name == later.name;
    }
  }

  /** Everything a merge would take from the source is there already. */
  predicate Covers(p: Profile, src: Profile)
  {
    && (NonEmpty(src.name) && src.quality >= p.quality ==> p.name == src.name)
    && (NonEmpty(src.avatar) ==> p.avatar == src.avatar)
    && (NonEmpty(src.topic) ==> p.topic == src.topic)
    && (NonEmpty(src.alias) ==> p.alias == src.alias)
    && (src.roomType != "" ==> p.roomType == src.roomType)
    && (src.roomVersion != "" ==> p.roomVersion == src.roomVersion)
    && (src.federated.Some? ==> p.federated == src.federated)
    && (src.memberCount > 0 ==> p.memberCount == src.memberCount)
  }

  /** What a merge reports: a changed value, or an attribute that always counts. */
  predicate ReportsChange(p: Profile, src: Profile) { Merge(p, src) != p || AlwaysCounts(src) }

  /**
    A merge reports a change that did not happen exactly when the source is covered and carries an attribute that
    always counts; so merging a source a second time is reported exactly when it carries one.
   */
  lemma UnchangedYetReported(p: Profile, src: Profile)
    ensures Merge(p, src) == p <==> Covers(p, src)
    ensures ReportsChange(p, src) && Merge(p, src) == p <==> Covers(p, src) && AlwaysCounts(src)
    ensures ReportsChange(Merge(p, src), src) <==> AlwaysCounts(src)
  {
    MergeTakesSource(p, src);
    if Covers(p, src) {
      assert MergedTexts(p, src) == p;
    }
  }

  // ---- the published projection ----

  datatype Wire = Wire(
    name: string, avatarUrl: string, topic: string, alias: string, roomType: string, roomVersion: string,
    federated: Option<bool>, members: int)

  const EMPTY_WIRE: Wire := Wire("", "", "", "", "", "", None, 0)

  function Text(s: Option<string>): string { if s.Some? then s.value else "" }

  function ToWire(p: Profile): Wire
  {
    Wire(Text(p.name), Text(p.avatar), Text(p.topic), Text(p.alias), p.roomType, p.roomVersion, p.federated,
         p.memberCount)
  }

  /** Visibility is in lockstep with publication except for a lone negative member count. */
  lemma VisibleIffPublished(p: Profile)
    ensures (HasVisibleData(p) <==> ToWire(p) != EMPTY_WIRE)
            <==> !(p.memberCount < 0 && ToWire(p).(members := 0) == EMPTY_WIRE)
  {
  }
}
