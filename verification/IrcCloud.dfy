/** The re-entrant message handler: out-of-band includes and backlog pages are fetched and handled recursively. */
module IrcCloud {
  const MAX_BACKLOG_PAGES: nat := 5

  /** What an out-of-band include leads to: no address, a failed fetch, or the messages fetched. */
  datatype Oob = NoUrl | OobFailed | OobLines(lines: seq<Msg>)

  datatype Kind =
    | Header(streamId: string)
    | OobInclude(oob: Oob)
    | MakeBuffer(minEid: nat, deferred: bool)
    | OtherKind

  datatype Msg = Msg(kind: Kind, bid: int, eid: nat)

  datatype Answer = BacklogFailed | Page(lines: seq<Msg>)

  /** A page is asked for from before the earliest event of the page that came before it. */
  predicate Continues(page: (nat, seq<Msg>), next: (nat, seq<Msg>), minEid: nat)
  {
    next.0 == Earliest(page.1) > minEid
  }

  /** The answer to a backlog request may depend on the buffer, the paging position and the request's number. */
  type Server = (int, nat, nat) -> Answer

  /** Requests are numbered; those made in between two moments carry the numbers between the two counts. */
  datatype Span = Span(from: nat, upto: nat)

  ghost predicate Answers(server: Server, bid: int, before: nat, answer: Answer, span: Span)
  {
    exists n :: span.from <= n < span.upto && server(bid, before, n) == answer
  }

  /** Pages answered in the span, the first from the newest end and each further one from before the previous one. */
  ghost predicate PageChain(server: Server, bid: int, minEid: nat, pulled: seq<(nat, seq<Msg>)>, span: Span)
  {
    && (pulled != [] ==> pulled[0].0 == 0)
    && (forall p <- pulled :: Answers(server, bid, p.0, Page(p.1), span))
    && forall j, k :: 0 <= j && k == j + 1 < |pulled| ==> Continues(pulled[j], pulled[k], minEid)
  }

  lemma SpanGrows(server: Server, bid: int, before: nat, answer: Answer, span: Span, span': Span)
    requires Answers(server, bid, before, answer, span) && span'.from <= span.from && span.upto <= span'.upto
    ensures Answers(server, bid, before, answer, span')
  {
  }

  lemma PageChainGrows(
    server: Server, bid: int, minEid: nat, pulled: seq<(nat, seq<Msg>)>, span: Span, upto: nat)
    requires PageChain(server, bid, minEid, pulled, span) && span.upto <= upto
    ensures PageChain(server, bid, minEid, pulled, Span(span.from, upto))
  {
    forall p | p in pulled
      ensures Answers(server, bid, p.0, Page(p.1), Span(span.from, upto))
    {
      SpanGrows(server, bid, p.0, Page(p.1), span, Span(span.from, upto));
    }
  }

  lemma PageChainSnoc(server: Server, bid: int, minEid: nat, pulled: seq<(nat, seq<Msg>)>, before: nat,
                      lines: seq<Msg>, span: Span, mid: nat, upto: nat)
    requires PageChain(server, bid, minEid, pulled, span) && span.from <= span.upto <= mid <= upto
    requires Answers(server, bid, before, Page(lines), Span(mid, upto))
    requires if pulled == [] then before == 0 else Continues(pulled[|pulled| - 1], (before, lines), minEid)
    ensures PageChain(server, bid, minEid, pulled + [(before, lines)], Span(span.from, upto))
  {
    var all, span' := pulled + [(before, lines)], Span(span.from, upto);
    SpanGrows(server, bid, before, Page(lines), Span(mid, upto), span');
    forall p | p in all
      ensures Answers(server, bid, p.0, Page(p.1), span')
    {
      if p in pulled {
        SpanGrows(server, bid, p.0, Page(p.1), span, span');
      }
    }
  }

  datatype Event =
    | Handled(bid: int, eid: nat)
    | Published(bid: int, eid: nat)
    | Requested(bid: int, before: nat)
    | Connected(streamId: string)
    | Restarted

  predicate Tracked(bid: int, eid: nat) { bid != 0 && eid != 0 }

  // ---- what a log says ----

  /** The event id to resume from: the highest handled since the last failed out-of-band fetch. */
  function ResumePoint(log: seq<Event>): nat
  {
    if log == [] then 0
    else
      var r := ResumePoint(log[..|log| - 1]);
      match log[|log| - 1]
      case Handled(_, eid) => if eid > r then eid else r
      case Restarted => 0
      case _ => r
  }

  ghost predicate NoRestartAfter(log: seq<Event>, i: nat)
  {
    forall j :: i <= j < |log| ==> !log[j].Restarted?
  }

  lemma {:induction false} ResumePointIsHighest(log: seq<Event>)
    ensures forall i :: 0 <= i < |log| && log[i].Handled? && NoRestartAfter(log, i) ==> log[i].eid <= ResumePoint(log)
    ensures ResumePoint(log) == 0 ||
            exists i :: 0 <= i < |log| && log[i].Handled? && NoRestartAfter(log, i) && log[i].eid == ResumePoint(log)
  {
    if log != [] {
      var init, last := log[..|log| - 1], log[|log| - 1];
      ResumePointIsHighest(init);
      forall i | 0 <= i < |init|
        ensures NoRestartAfter(log, i) <==> NoRestartAfter(init, i) && !last.Restarted?
      {
        assert log[|init|] == last;
        assert forall j :: i <= j < |init| ==> log[j] == init[j];
      }
      if last.Handled? {
        assert NoRestartAfter(log, |init|);
      }
    }
  }

  function StreamOf(log: seq<Event>): string
  {
    if log == [] then ""
    else
      match log[|log| - 1]
      case Connected(id) => id
      case Restarted => ""
      case _ => StreamOf(log[..|log| - 1])
  }

  function Requests(log: seq<Event>, bid: int): nat
  {
    if log == [] then 0
    else Requests(log[..|log| - 1], bid) + if log[|log| - 1].Requested? && log[|log| - 1].bid == bid then 1 else 0
  }

  function RequestsMade(log: seq<Event>): nat
  {
    if log == [] then 0 else RequestsMade(log[..|log| - 1]) + if log[|log| - 1].Requested? then 1 else 0
  }

  /** No tracked message is published twice, and none is published that was not handled. */
  ghost predicate PublishedOnce(log: seq<Event>)
  {
    && (forall b, e :: Published(b, e) in log ==> Handled(b, e) in log)
    && forall i, j :: 0 <= i < j < |log| && log[i].Published? && log[i] == log[j] ==> !Tracked(log[i].bid, log[i].eid)
  }

  /** The lowest positive event id of a page, zero if there is none. */
  function Earliest(lines: seq<Msg>): nat
  {
    if lines == [] then 0
    else
      var r, last := Earliest(lines[..|lines| - 1]), lines[|lines| - 1].eid;
      if last > 0 && (r == 0 || last < r) then last else r
  }

  lemma {:induction false} EarliestIsLowest(lines: seq<Msg>)
    ensures forall l <- lines :: l.eid > 0 ==> 0 < Earliest(lines) <= l.eid
    ensures Earliest(lines) > 0 ==> exists l <- lines :: l.eid == Earliest(lines)
  {
    if lines != [] {
      EarliestIsLowest(lines[..|lines| - 1]);
    }
  }

  /** The stream id is that of the last connection since the last failed out-of-band fetch. */
  lemma {:induction false} StreamIsLastConnected(log: seq<Event>, i: nat)
    requires i < |log| && log[i].Connected?
    requires forall j :: i < j < |log| ==> !log[j].Connected? && !log[j].Restarted?
    ensures StreamOf(log) == log[i].streamId
  {
    if i < |log| - 1 {
      StreamIsLastConnected(log[..|log| - 1], i);
    }
  }

  lemma OneMoreLine(lines: seq<Msg>, i: nat)
    requires i < |lines|
    ensures var r, eid := Earliest(lines[..i]), lines[i].eid;
            Earliest(lines[..i + 1]) == if eid > 0 && (r == 0 || eid < r) then eid else r
  {
    assert lines[..i + 1][..i] == lines[..i];
  }

  /**
    What handling adds to a log: tracked messages published are new to it, and each tracked message handled had been
    handled before or is published by the time handling returns.
   */
  ghost predicate Extends(before: seq<Event>, after: seq<Event>)
  {
    && before <= after
    && (forall b, e :: Published(b, e) in after[|before|..] && Tracked(b, e) ==> Handled(b, e) !in before)
    && (forall b, e :: Handled(b, e) in after[|before|..] && Tracked(b, e) ==>
          Handled(b, e) in before || Published(b, e) in after[|before|..])
  }

  lemma ExtendsChain(a: seq<Event>, b: seq<Event>, c: seq<Event>)
    requires Extends(a, b) && Extends(b, c)
    ensures Extends(a, c)
  {
    assert c[|a|..] == b[|a|..] + c[|b|..];
    assert b == a + b[|a|..];
  }

  /** Bookkeeping events other than Handled and Published extend every log. */
  lemma ExtendsByNote(log: seq<Event>, e: Event)
    requires !e.Handled? && !e.Published?
    ensures Extends(log, log + [e])
    ensures PublishedOnce(log) ==> PublishedOnce(log + [e])
  {
    assert (log + [e])[|log|..] == [e];
  }

  /** Handling again what was handled before extends a log without publishing. */
  lemma RepeatExtends(log: seq<Event>, b: int, e: nat)
    requires Handled(b, e) in log
    ensures Extends(log, log + [Handled(b, e)])
  {
    assert (log + [Handled(b, e)])[|log|..] == [Handled(b, e)];
  }

  /** Publishing last what was handled first completes the extension, whatever was handled in between. */
  lemma ExtendsAround(log: seq<Event>, inner: seq<Event>, b: int, e: nat)
    requires Extends(log + [Handled(b, e)], inner) && PublishedOnce(log) && PublishedOnce(inner)
    requires Tracked(b, e) ==> Handled(b, e) !in log
    ensures Extends(log, inner + [Published(b, e)]) && PublishedOnce(inner + [Published(b, e)])
  {
    var start, all := log + [Handled(b, e)], inner + [Published(b, e)];
    assert inner == start + inner[|start|..];
    assert all[|log|..] == [Handled(b, e)] + inner[|start|..] + [Published(b, e)];
    if Tracked(b, e) {
      assert Published(b, e) !in log;
      assert Published(b, e) !in inner;
    }
  }

  lemma PublishedOnceAfterHandling(log: seq<Event>, b: int, e: nat)
    requires PublishedOnce(log)
    ensures PublishedOnce(log + [Handled(b, e)])
  {
  }

  lemma NoteCounts(log: seq<Event>, e: Event)
    ensures ResumePoint(log + [e])
         == (match e case Handled(_, eid) => if eid > ResumePoint(log) then eid else ResumePoint(log)
                     case Restarted => 0
                     case _ => ResumePoint(log))
    ensures StreamOf(log + [e])
         == (match e case Connected(id) => id case Restarted => "" case _ => StreamOf(log))
    ensures forall b :: Requests(log + [e], b) == Requests(log, b) + if e.Requested? && e.bid == b then 1 else 0
    ensures RequestsMade(log + [e]) == RequestsMade(log) + if e.Requested? then 1 else 0
  {
    assert (log + [e])[..|log|] == log;
  }

  ghost predicate AllHandled(lines: seq<Msg>, log: seq<Event>)
  {
    forall l <- lines :: Handled(l.bid, l.eid) in log
  }

  ghost predicate PagesHandled(pulled: seq<(nat, seq<Msg>)>, log: seq<Event>)
  {
    forall p <- pulled :: AllHandled(p.1, log)
  }

  lemma HandledGrows(lines: seq<Msg>, pulled: seq<(nat, seq<Msg>)>, log: seq<Event>, log': seq<Event>)
    requires log <= log'
    ensures AllHandled(lines, log) ==> AllHandled(lines, log')
    ensures PagesHandled(pulled, log) ==> PagesHandled(pulled, log')
  {
    assert forall e <- log :: e in log';
  }

  function NextBefore(pulled: seq<(nat, seq<Msg>)>): nat
  {
    if pulled == [] then 0 else Earliest(pulled[|pulled| - 1].1)
  }

  /** Why paging may stop early: the last page reaches back to the known messages, or the next request failed. */
  ghost predicate PagingStopped(server: Server, bid: int, minEid: nat, pulled: seq<(nat, seq<Msg>)>, span: Span)
  {
    || (pulled != [] && NextBefore(pulled) <= minEid)
    || Answers(server, bid, NextBefore(pulled), BacklogFailed, span)
  }

  /** A buffer's history was pulled by the requests of a span: consecutive pages, all handled, to a proper end. */
  ghost predicate HistoryPulled(
    server: Server, bid: int, minEid: nat, pulled: seq<(nat, seq<Msg>)>, log: seq<Event>, span: Span)
  {
    && PageChain(server, bid, minEid, pulled, span)
    && PagesHandled(pulled, log)
    && (Requests(log, bid) >= MAX_BACKLOG_PAGES || PagingStopped(server, bid, minEid, pulled, span))
  }

  ghost predicate HistoryIsPulled(server: Server, bid: int, minEid: nat, log: seq<Event>, span: Span)
  {
    exists pulled :: HistoryPulled(server, bid, minEid, pulled, log, span)
  }

  lemma HistoryPulledGrows(server: Server, bid: int, minEid: nat, log: seq<Event>, e: Event, span: Span)
    requires HistoryIsPulled(server, bid, minEid, log, span)
    ensures HistoryIsPulled(server, bid, minEid, log + [e], span)
  {
    var pulled :| HistoryPulled(server, bid, minEid, pulled, log, span);
    HandledGrows([], pulled, log, log + [e]);
    NoteCounts(log, e);
    assert HistoryPulled(server, bid, minEid, pulled, log + [e], span);
  }

  // ---- what handling writes to the log, event by event ----

  predicate Repeats(m: Msg, log: seq<Event>) { Tracked(m.bid, m.eid) && Handled(m.bid, m.eid) in log }

  /** Handling a message takes the log from one state to the other: a repeat leaves only its registration. */
  ghost predicate Takes(server: Server, log: seq<Event>, m: Msg, log': seq<Event>)
    decreases |log'|, 0, 0
  {
    if Repeats(m, log) then
      log' == log + [Handled(m.bid, m.eid)]
    else
      && |log'| > 0
      && log'[|log'| - 1] == Published(m.bid, m.eid)
      && Acts(server, log + [Handled(m.bid, m.eid)], m, log'[..|log'| - 1])
  }

  /** What a message leads to between its registration and its publication. */
  ghost predicate Acts(server: Server, log: seq<Event>, m: Msg, log': seq<Event>)
    decreases |log'|, 3, 0
  {
    match m.kind
    case Header(id) => log' == log + [Connected(id)]
    case OobInclude(OobFailed) => log' == log + [Restarted]
    case OobInclude(OobLines(lines)) => TakesAll(server, log, lines, log')
    case MakeBuffer(minEid, true) => Pulls(server, log, m.bid, minEid, 0, log')
    case _ => log' == log
  }

  /** Messages are handled one after another, each to its end. */
  ghost predicate TakesAll(server: Server, log: seq<Event>, ms: seq<Msg>, log': seq<Event>)
    decreases |log'|, 1, |ms|
  {
    if ms == [] then log' == log
    else
      var n := |ms| - 1;
      exists mid :: |mid| < |log'| && TakesAll(server, log, ms[..n], mid) && Takes(server, mid, ms[n], log')
  }

  /** A backlog is pulled from a paging position: the request, the whole page, then the next one from its earliest. */
  ghost predicate Pulls(server: Server, log: seq<Event>, bid: int, minEid: nat, before: nat, log': seq<Event>)
    decreases |log'|, 2, if |log| <= |log'| then |log'| - |log| else 0
  {
    if Requests(log, bid) >= MAX_BACKLOG_PAGES then log' == log
    else
      var asked := log + [Requested(bid, before)];
      match server(bid, before, RequestsMade(log))
      case BacklogFailed => log' == asked
      case Page(lines) =>
        exists mid ::
          && |log| < |mid| <= |log'|
          && TakesAll(server, asked, lines, mid)
          && if Earliest(lines) <= minEid then log' == mid
             else Pulls(server, mid, bid, minEid, Earliest(lines), log')
  }

  /** What handling messages in order comes to. */
  ghost predicate HandlesAll(server: Server, log: seq<Event>, ms: seq<Msg>, log': seq<Event>)
  {
    Extends(log, log') && AllHandled(ms, log') && TakesAll(server, log, ms, log')
  }

  ghost predicate Handles(server: Server, log: seq<Event>, m: Msg, log': seq<Event>)
  {
    Extends(log, log') && |log| < |log'| && Handled(m.bid, m.eid) in log' && Takes(server, log, m, log')
  }

  lemma HandlesNone(server: Server, log: seq<Event>, ms: seq<Msg>)
    ensures HandlesAll(server, log, ms[..0], log)
  {
  }

  lemma HandlesOneMore(server: Server, log: seq<Event>, ms: seq<Msg>, i: nat, mid: seq<Event>, log': seq<Event>)
    requires i < |ms| && HandlesAll(server, log, ms[..i], mid) && Handles(server, mid, ms[i], log')
    ensures HandlesAll(server, log, ms[..i + 1], log')
  {
    ExtendsChain(log, mid, log');
    HandledGrows(ms[..i], [], mid, log');
    assert ms[..i + 1][..i] == ms[..i];
    assert ms[..i + 1][i] == ms[i];
  }

  /** However a pull goes on from the second log, the first log's pull ends in the same way. */
  ghost predicate LeadsTo(
    server: Server, bid: int, minEid: nat, log: seq<Event>, before: nat, mid: seq<Event>, next: nat)
  {
    forall z :: Pulls(server, mid, bid, minEid, next, z) ==> Pulls(server, log, bid, minEid, before, z)
  }

  /** One turn of the backlog loop. */
  ghost predicate Turn(
    server: Server, bid: int, log: seq<Event>, before: nat, answer: Answer, log': seq<Event>)
  {
    && Requests(log, bid) < MAX_BACKLOG_PAGES
    && answer == server(bid, before, RequestsMade(log))
    && |log| < |log'|
    && match answer
       case BacklogFailed => log' == log + [Requested(bid, before)]
       case Page(lines) => TakesAll(server, log + [Requested(bid, before)], lines, log')
  }

  lemma TurnThenPull(server: Server, bid: int, minEid: nat, log: seq<Event>, before: nat, lines: seq<Msg>,
                     mid: seq<Event>, log': seq<Event>)
    requires Turn(server, bid, log, before, Page(lines), mid) && Earliest(lines) > minEid
    requires Pulls(server, mid, bid, minEid, Earliest(lines), log')
    ensures Pulls(server, log, bid, minEid, before, log')
  {
    assert |mid| <= |log'|;
  }

  lemma LeadsOn(server: Server, bid: int, minEid: nat, log: seq<Event>, before: nat, mid: seq<Event>, next: nat,
                lines: seq<Msg>, mid': seq<Event>)
    requires LeadsTo(server, bid, minEid, log, before, mid, next)
    requires Turn(server, bid, mid, next, Page(lines), mid') && Earliest(lines) > minEid
    ensures LeadsTo(server, bid, minEid, log, before, mid', Earliest(lines))
  {
    forall z | Pulls(server, mid', bid, minEid, Earliest(lines), z)
      ensures Pulls(server, log, bid, minEid, before, z)
    {
      TurnThenPull(server, bid, minEid, mid, next, lines, mid', z);
    }
  }

  /** The loop ends: no request left, a failed one, or a page that reaches back far enough. */
  lemma LeadsToEnd(server: Server, bid: int, minEid: nat, log: seq<Event>, before: nat, mid: seq<Event>, next: nat,
                   answer: Answer, end: seq<Event>)
    requires LeadsTo(server, bid, minEid, log, before, mid, next)
    requires if Requests(mid, bid) >= MAX_BACKLOG_PAGES then end == mid
             else Turn(server, bid, mid, next, answer, end)
                  && (answer.Page? ==> Earliest(answer.lines) <= minEid)
    ensures Pulls(server, log, bid, minEid, before, end)
  {
    assert Pulls(server, mid, bid, minEid, next, end);
  }

  /** Where a pull stands in between two turns. */
  ghost predicate Pulling(server: Server, bid: int, minEid: nat, log: seq<Event>, pulled: seq<(nat, seq<Msg>)>,
                          before: nat, log': seq<Event>, span: Span)
  {
    && Extends(log, log')
    && PageChain(server, bid, minEid, pulled, span) && PagesHandled(pulled, log')
    && before == NextBefore(pulled) && (pulled != [] ==> before > minEid)
    && LeadsTo(server, bid, minEid, log, 0, log', before)
  }

  ghost predicate HasPulled(server: Server, bid: int, minEid: nat, log: seq<Event>, pulled: seq<(nat, seq<Msg>)>,
                            log': seq<Event>, span: Span)
  {
    && Extends(log, log')
    && HistoryPulled(server, bid, minEid, pulled, log', span)
    && Pulls(server, log, bid, minEid, 0, log')
  }

  lemma PullStarts(server: Server, bid: int, minEid: nat, log: seq<Event>, from: nat)
    ensures Pulling(server, bid, minEid, log, [], 0, log, Span(from, from))
  {
  }

  lemma PullExhausts(server: Server, bid: int, minEid: nat, log: seq<Event>, pulled: seq<(nat, seq<Msg>)>,
                     before: nat, log': seq<Event>, span: Span)
    requires Pulling(server, bid, minEid, log, pulled, before, log', span) && Requests(log', bid) >= MAX_BACKLOG_PAGES
    ensures HasPulled(server, bid, minEid, log, pulled, log', span)
  {
    LeadsToEnd(server, bid, minEid, log, 0, log', before, BacklogFailed, log');
  }

  lemma PullFails(server: Server, bid: int, minEid: nat, log: seq<Event>, pulled: seq<(nat, seq<Msg>)>, before: nat,
                  mid: seq<Event>, span: Span, log': seq<Event>, upto: nat)
    requires Pulling(server, bid, minEid, log, pulled, before, mid, span) && Extends(mid, log')
    requires Turn(server, bid, mid, before, BacklogFailed, log') && span.from <= span.upto <= upto
    requires Answers(server, bid, before, BacklogFailed, Span(span.upto, upto))
    ensures HasPulled(server, bid, minEid, log, pulled, log', Span(span.from, upto))
  {
    ExtendsChain(log, mid, log');
    HandledGrows([], pulled, mid, log');
    PageChainGrows(server, bid, minEid, pulled, span, upto);
    SpanGrows(server, bid, before, BacklogFailed, Span(span.upto, upto), Span(span.from, upto));
    LeadsToEnd(server, bid, minEid, log, 0, mid, before, BacklogFailed, log');
  }

  lemma PageIsPulled(server: Server, bid: int, minEid: nat, log: seq<Event>, pulled: seq<(nat, seq<Msg>)>, before: nat,
                     mid: seq<Event>, span: Span, lines: seq<Msg>, log': seq<Event>, upto: nat)
    requires Pulling(server, bid, minEid, log, pulled, before, mid, span) && Extends(mid, log')
    requires Turn(server, bid, mid, before, Page(lines), log') && span.from <= span.upto <= upto
    requires Answers(server, bid, before, Page(lines), Span(span.upto, upto)) && AllHandled(lines, log')
    ensures var pulled', span' := pulled + [(before, lines)], Span(span.from, upto);
            if Earliest(lines) <= minEid then HasPulled(server, bid, minEid, log, pulled', log', span')
            else Pulling(server, bid, minEid, log, pulled', Earliest(lines), log', span')
  {
    ExtendsChain(log, mid, log');
    HandledGrows([], pulled, mid, log');
    PageChainSnoc(server, bid, minEid, pulled, before, lines, span, span.upto, upto);
    if Earliest(lines) <= minEid {
      LeadsToEnd(server, bid, minEid, log, 0, mid, before, Page(lines), log');
    } else {
      LeadsOn(server, bid, minEid, log, 0, mid, before, lines, log');
    }
  }

  /** What a message that is no repeat leaves in the log, kind by kind. */
  ghost predicate HasEffect(server: Server, log: seq<Event>, m: Msg, log': seq<Event>, span: Span)
  {
    var handled, published := Handled(m.bid, m.eid), Published(m.bid, m.eid);
    && |log'| > |log| + 1 && log'[|log|] == handled && log'[|log'| - 1] == published
    && match m.kind
       case Header(id) => log' == log + [handled, Connected(id), published]
       case OobInclude(OobFailed) => log' == log + [handled, Restarted, published]
       case OobInclude(OobLines(lines)) => AllHandled(lines, log')
       case MakeBuffer(minEid, true) => HistoryIsPulled(server, m.bid, minEid, log', span)
       case _ => log' == log + [handled, published]
  }

  /** What the switch on the message type leaves in the log, type by type. */
  ghost predicate Acted(server: Server, log: seq<Event>, m: Msg, log': seq<Event>, span: Span)
  {
    && Extends(log, log') && Acts(server, log, m, log')
    && match m.kind
       case Header(id) => log' == log + [Connected(id)]
       case OobInclude(OobFailed) => log' == log + [Restarted]
       case OobInclude(OobLines(lines)) => AllHandled(lines, log')
       case MakeBuffer(minEid, true) => HistoryIsPulled(server, m.bid, minEid, log', span)
       case _ => log' == log
  }

  lemma EffectOfActing(server: Server, log: seq<Event>, m: Msg, acted: seq<Event>, span: Span)
    requires Acted(server, log + [Handled(m.bid, m.eid)], m, acted, span)
    ensures HasEffect(server, log, m, acted + [Published(m.bid, m.eid)], span)
  {
    var handled, log' := Handled(m.bid, m.eid), acted + [Published(m.bid, m.eid)];
    assert log'[|log|] == (log + [handled])[|log|];
    match m.kind {
      case OobInclude(OobLines(lines)) => HandledGrows(lines, [], acted, log');
      case MakeBuffer(minEid, true) =>
        HistoryPulledGrows(server, m.bid, minEid, acted, Published(m.bid, m.eid), span);
      case _ =>
    }
  }

  lemma HandlesByActing(server: Server, log: seq<Event>, m: Msg, acted: seq<Event>, span: Span)
    requires !Repeats(m, log) && Acted(server, log + [Handled(m.bid, m.eid)], m, acted, span)
    requires Extends(log, acted + [Published(m.bid, m.eid)])
    ensures Handles(server, log, m, acted + [Published(m.bid, m.eid)])
  {
    var log' := acted + [Published(m.bid, m.eid)];
    assert log'[..|acted|] == acted;
    assert log'[|log|] == (log + [Handled(m.bid, m.eid)])[|log|];
  }

  lemma RepeatHandles(server: Server, log: seq<Event>, m: Msg)
    requires Repeats(m, log)
    ensures Handles(server, log, m, log + [Handled(m.bid, m.eid)])
  {
    RepeatExtends(log, m.bid, m.eid);
    assert (log + [Handled(m.bid, m.eid)])[|log|] == Handled(m.bid, m.eid);
  }

  // ---- what the written log says of the messages ----

  lemma {:induction false} TakesGrows(server: Server, log: seq<Event>, m: Msg, log': seq<Event>)
    requires Takes(server, log, m, log')
    ensures log < log' && Handled(m.bid, m.eid) in log'
    decreases |log'|, 0, 0
  {
    var start := log + [Handled(m.bid, m.eid)];
    assert start[|log|] in start;
    if !Repeats(m, log) {
      ActsGrows(server, start, m, log'[..|log'| - 1]);
      assert start <= log';
      assert log'[|log|] == start[|log|];
    }
  }

  lemma {:induction false} ActsGrows(server: Server, log: seq<Event>, m: Msg, log': seq<Event>)
    requires Acts(server, log, m, log')
    ensures log <= log'
    decreases |log'|, 3, 0
  {
    match m.kind {
      case OobInclude(OobLines(lines)) => TakesAllGrows(server, log, lines, log');
      case MakeBuffer(minEid, true) => PullsGrows(server, log, m.bid, minEid, 0, log');
      case _ =>
    }
  }

  lemma {:induction false} TakesAllGrows(server: Server, log: seq<Event>, ms: seq<Msg>, log': seq<Event>)
    requires TakesAll(server, log, ms, log')
    ensures log <= log'
    decreases |log'|, 1, |ms|
  {
    if ms != [] {
      var n := |ms| - 1;
      var mid :| |mid| < |log'| && TakesAll(server, log, ms[..n], mid) && Takes(server, mid, ms[n], log');
      TakesAllGrows(server, log, ms[..n], mid);
      TakesGrows(server, mid, ms[n], log');
    }
  }

  lemma PageEnd(server: Server, log: seq<Event>, bid: int, minEid: nat, before: nat, lines: seq<Msg>, z: seq<Event>)
    returns (mid: seq<Event>)
    requires Requests(log, bid) < MAX_BACKLOG_PAGES && server(bid, before, RequestsMade(log)) == Page(lines)
    requires Pulls(server, log, bid, minEid, before, z)
    ensures |log| < |mid| <= |z| && TakesAll(server, log + [Requested(bid, before)], lines, mid)
    ensures if Earliest(lines) <= minEid then z == mid else Pulls(server, mid, bid, minEid, Earliest(lines), z)
  {
    mid :| |log| < |mid| <= |z| && TakesAll(server, log + [Requested(bid, before)], lines, mid) &&
           if Earliest(lines) <= minEid then z == mid else Pulls(server, mid, bid, minEid, Earliest(lines), z);
  }

  lemma {:induction false} PullsGrows(
    server: Server, log: seq<Event>, bid: int, minEid: nat, before: nat, log': seq<Event>)
    requires Pulls(server, log, bid, minEid, before, log')
    ensures log <= log'
    decreases |log'|, 2, if |log| <= |log'| then |log'| - |log| else 0
  {
    if Requests(log, bid) < MAX_BACKLOG_PAGES {
      var answer := server(bid, before, RequestsMade(log));
      if answer.Page? {
        var mid := PageEnd(server, log, bid, minEid, before, answer.lines, log');
        TakesAllGrows(server, log + [Requested(bid, before)], answer.lines, mid);
        if Earliest(answer.lines) > minEid {
          PullsGrows(server, mid, bid, minEid, Earliest(answer.lines), log');
        }
      }
    }
  }

  /** An untracked message, which no duplicate test holds up, has had its effect, and so has all nested in it. */
  ghost predicate Followed(server: Server, m: Msg, log: seq<Event>)
  {
    && Handled(m.bid, m.eid) in log
    && (!Tracked(m.bid, m.eid) ==>
          && Published(m.bid, m.eid) in log
          && match m.kind
             case Header(id) => Connected(id) in log
             case OobInclude(OobFailed) => Restarted in log
             case OobInclude(OobLines(lines)) => forall l <- lines :: Followed(server, l, log)
             case MakeBuffer(minEid, true) => PullsWithin(server, m.bid, minEid, log)
             case _ => true)
  }

  /** Some stretch of the log is a whole pull of the buffer's backlog from its newest end. */
  ghost predicate PullsWithin(server: Server, bid: int, minEid: nat, log: seq<Event>)
  {
    exists i, j :: 0 <= i <= j <= |log| && Pulls(server, log[..i], bid, minEid, 0, log[..j])
  }

  lemma PullsWithinGrows(server: Server, bid: int, minEid: nat, log: seq<Event>, log': seq<Event>)
    requires log <= log' && PullsWithin(server, bid, minEid, log)
    ensures PullsWithin(server, bid, minEid, log')
  {
    var i, j :| 0 <= i <= j <= |log| && Pulls(server, log[..i], bid, minEid, 0, log[..j]);
    assert log'[..i] == log[..i] && log'[..j] == log[..j];
  }

  lemma {:induction false} FollowedGrows(server: Server, m: Msg, log: seq<Event>, log': seq<Event>)
    requires log <= log' && Followed(server, m, log)
    ensures Followed(server, m, log')
  {
    assert forall e <- log :: e in log';
    if !Tracked(m.bid, m.eid) {
      match m.kind {
        case OobInclude(OobLines(lines)) =>
          forall l | l in lines
            ensures Followed(server, l, log')
          {
            FollowedGrows(server, l, log, log');
          }
        case MakeBuffer(minEid, true) => PullsWithinGrows(server, m.bid, minEid, log, log');
        case _ =>
      }
    }
  }

  lemma {:induction false} TakenIsFollowed(server: Server, log: seq<Event>, m: Msg, log': seq<Event>)
    requires Takes(server, log, m, log')
    ensures Followed(server, m, log')
    decreases m, 1
  {
    TakesGrows(server, log, m, log');
    if !Tracked(m.bid, m.eid) {
      var start, acted := log + [Handled(m.bid, m.eid)], log'[..|log'| - 1];
      assert log' == acted + [Published(m.bid, m.eid)];
      match m.kind {
        case OobInclude(OobLines(lines)) =>
          AllTakenAreFollowed(server, start, lines, acted);
          forall l | l in lines
            ensures Followed(server, l, log')
          {
            FollowedGrows(server, l, acted, log');
          }
        case MakeBuffer(minEid, true) =>
          PullsGrows(server, start, m.bid, minEid, 0, acted);
          assert log'[..|start|] == start && log'[..|acted|] == acted;
        case _ =>
      }
    }
  }

  /** Every message of a stream, and every message nested in its untracked includes, has had its effect. */
  lemma {:induction false} AllTakenAreFollowed(server: Server, log: seq<Event>, ms: seq<Msg>, log': seq<Event>)
    requires TakesAll(server, log, ms, log')
    ensures forall m <- ms :: Followed(server, m, log')
    decreases ms
  {
    if ms != [] {
      var n := |ms| - 1;
      var mid :| |mid| < |log'| && TakesAll(server, log, ms[..n], mid) && Takes(server, mid, ms[n], log');
      AllTakenAreFollowed(server, log, ms[..n], mid);
      TakesGrows(server, mid, ms[n], log');
      TakenIsFollowed(server, mid, ms[n], log');
      forall m | m in ms[..n]
        ensures Followed(server, m, log')
      {
        FollowedGrows(server, m, mid, log');
      }
    }
  }

  // ---- the log is a function of the messages and the answers ----

  lemma {:induction false} TakesIsDetermined(
    server: Server, log: seq<Event>, m: Msg, z: seq<Event>, z': seq<Event>)
    requires Takes(server, log, m, z) && Takes(server, log, m, z')
    ensures z == z'
    decreases |z|, 0, 0
  {
    if !Repeats(m, log) {
      ActsIsDetermined(server, log + [Handled(m.bid, m.eid)], m, z[..|z| - 1], z'[..|z'| - 1]);
      assert z == z[..|z| - 1] + [Published(m.bid, m.eid)];
      assert z' == z'[..|z'| - 1] + [Published(m.bid, m.eid)];
    }
  }

  lemma {:induction false} ActsIsDetermined(
    server: Server, log: seq<Event>, m: Msg, z: seq<Event>, z': seq<Event>)
    requires Acts(server, log, m, z) && Acts(server, log, m, z')
    ensures z == z'
    decreases |z|, 3, 0
  {
    match m.kind {
      case OobInclude(OobLines(lines)) => LogIsDetermined(server, log, lines, z, z');
      case MakeBuffer(minEid, true) => PullsIsDetermined(server, log, m.bid, minEid, 0, z, z');
      case _ =>
    }
  }

  /** The same messages in front of the same answers write the same log. */
  lemma {:induction false} LogIsDetermined(
    server: Server, log: seq<Event>, ms: seq<Msg>, z: seq<Event>, z': seq<Event>)
    requires TakesAll(server, log, ms, z) && TakesAll(server, log, ms, z')
    ensures z == z'
    decreases |z|, 1, |ms|
  {
    if ms != [] {
      var n := |ms| - 1;
      var a :| |a| < |z| && TakesAll(server, log, ms[..n], a) && Takes(server, a, ms[n], z);
      var b :| |b| < |z'| && TakesAll(server, log, ms[..n], b) && Takes(server, b, ms[n], z');
      LogIsDetermined(server, log, ms[..n], a, b);
      TakesIsDetermined(server, a, ms[n], z, z');
    }
  }

  lemma {:induction false} PullsIsDetermined(
    server: Server, log: seq<Event>, bid: int, minEid: nat, before: nat, z: seq<Event>, z': seq<Event>)
    requires Pulls(server, log, bid, minEid, before, z) && Pulls(server, log, bid, minEid, before, z')
    ensures z == z'
    decreases |z|, 2, if |log| <= |z| then |z| - |log| else 0
  {
    if Requests(log, bid) < MAX_BACKLOG_PAGES && server(bid, before, RequestsMade(log)).Page? {
      var lines := server(bid, before, RequestsMade(log)).lines;
      var a := PageEnd(server, log, bid, minEid, before, lines, z);
      var b := PageEnd(server, log, bid, minEid, before, lines, z');
      LogIsDetermined(server, log + [Requested(bid, before)], lines, a, b);
      if Earliest(lines) > minEid {
        PullsIsDetermined(server, a, bid, minEid, Earliest(lines), z, z');
      }
    }
  }

  // ---- finitely many buffers ----

  predicate KnownBuffers(m: Msg, buffers: set<int>)
  {
    && (m.kind.MakeBuffer? ==> m.bid in buffers)
    && (m.kind.OobInclude? && m.kind.oob.OobLines? ==> forall l <- m.kind.oob.lines :: KnownBuffers(l, buffers))
  }

  ghost predicate KnownServer(server: Server, buffers: set<int>)
  {
    forall bid, before, n ::
      server(bid, before, n).Page? ==> forall l <- server(bid, before, n).lines :: KnownBuffers(l, buffers)
  }

  /** The backlog requests still allowed; every request uses one up. */
  function Slots(pages: map<int, nat>, buffers: set<int>): set<(int, nat)>
  {
    set b, i: nat | b in buffers && i < MAX_BACKLOG_PAGES && PagesOf(pages, b) <= i :: (b, i)
  }

  function PagesOf(pages: map<int, nat>, bid: int): nat { if bid in pages then pages[bid] else 0 }

  class StreamState {
    var lastEid: nat
    var streamId: string
    var seenEids: map<int, set<nat>>
    var backlogPages: map<int, nat>
    var calls: nat
    var log: seq<Event>
    const server: Server
    ghost const buffers: set<int>

    predicate Seen(bid: int, eid: nat)
      reads this
    {
      bid in seenEids && eid in seenEids[bid]
    }

    ghost predicate SeenIsHandled()
      reads this
    {
      forall b, e :: Seen(b, e) <==> Tracked(b, e) && Handled(b, e) in log
    }

    ghost predicate Valid()
      reads this
    {
      && KnownServer(server, buffers)
      && lastEid == ResumePoint(log)
      && streamId == StreamOf(log)
      && SeenIsHandled()
      && (forall b :: PagesOf(backlogPages, b) == Requests(log, b) <= MAX_BACKLOG_PAGES)
      && calls == RequestsMade(log)
      && PublishedOnce(log)
    }

    constructor (server: Server, ghost buffers: set<int>)
      requires KnownServer(server, buffers)
      ensures Valid() && log == [] && this.server == server && this.buffers == buffers
    {
      lastEid, streamId, seenEids, backlogPages, calls, log := 0, "", map[], map[], 0, [];
      this.server, this.buffers := server, buffers;
    }

    /** Untracked messages always pass; a tracked one passes the first time. */
    method MarkSeen(bid: int, eid: nat) returns (isNew: bool)
      modifies this`seenEids
      ensures isNew <==> !Tracked(bid, eid) || !old(Seen(bid, eid))
      ensures forall b, e :: Seen(b, e) <==> old(Seen(b, e)) || (b == bid && e == eid && Tracked(b, e))
    {
      if bid == 0 || eid == 0 {
        return true;
      }
      var m := if bid in seenEids then seenEids[bid] else {};
      if eid in m {
        seenEids := seenEids[bid := m];
        return false;
      }
      seenEids := seenEids[bid := m + {eid}];
      isNew := true;
    }

    /** Updates the resume point and the seen set; the first step of handling any message. */
    method Register(m: Msg) returns (isNew: bool)
      requires Valid()
      modifies this`lastEid, this`seenEids, this`log
      ensures Valid() && log == old(log) + [Handled(m.bid, m.eid)]
      ensures isNew <==> !Tracked(m.bid, m.eid) || Handled(m.bid, m.eid) !in old(log)
    {
      NoteCounts(log, Handled(m.bid, m.eid));
      PublishedOnceAfterHandling(log, m.bid, m.eid);
      if m.eid > lastEid {
        lastEid := m.eid;
      }
      isNew := Record(m.bid, m.eid);
    }

    /** The seen set and the log of handled messages grow together. */
    method Record(bid: int, eid: nat) returns (isNew: bool)
      requires SeenIsHandled()
      modifies this`seenEids, this`log
      ensures SeenIsHandled() && log == old(log) + [Handled(bid, eid)]
      ensures isNew <==> !Tracked(bid, eid) || Handled(bid, eid) !in old(log)
    {
      isNew := MarkSeen(bid, eid);
      ghost var log0 := log;
      log := log + [Handled(bid, eid)];
      assert forall b, e :: Handled(b, e) in log <==> Handled(b, e) in log0 || (b == bid && e == eid);
    }

    method Note(e: Event)
      requires Valid() && (e.Connected? || e.Restarted? || e.Published?)
      requires e.Published? ==> PublishedOnce(log + [e])
      modifies this`lastEid, this`streamId, this`log
      ensures Valid() && log == old(log) + [e]
    {
      NoteCounts(log, e);
      if !e.Published? {
        ExtendsByNote(log, e);
      }
      match e {
        case Connected(id) => streamId := id;
        case Restarted => streamId, lastEid := "", 0;
        case _ =>
      }
      log := log + [e];
    }

    /** Handles one message, whatever it leads to, before it returns. */
    method ProcessMessage(m: Msg)
      requires Valid() && KnownBuffers(m, buffers)
      modifies this
      ensures Valid() && calls >= old(calls)
      ensures Slots(backlogPages, buffers) <= old(Slots(backlogPages, buffers))
      ensures Repeats(m, old(log)) ==>
                log == old(log) + [Handled(m.bid, m.eid)] && calls == old(calls) && backlogPages == old(backlogPages)
      ensures !Repeats(m, old(log)) ==> HasEffect(server, old(log), m, log, Span(old(calls), calls))
      ensures Handles(server, old(log), m, log)
      decreases Slots(backlogPages, buffers), m, 4
    {
      ghost var start := log;
      var isNew := Register(m);
      if !isNew {
        RepeatHandles(server, start, m);
        return;
      }
      HandleKind(m);
      ghost var acted := log;
      Publish(m, start);
      HandlesByActing(server, start, m, acted, Span(old(calls), calls));
      EffectOfActing(server, start, m, acted, Span(old(calls), calls));
    }

    /** Publishes a message whose handling began at the given log. */
    method Publish(m: Msg, ghost start: seq<Event>)
      requires Valid() && PublishedOnce(start) && Extends(start + [Handled(m.bid, m.eid)], log)
      requires Tracked(m.bid, m.eid) ==> Handled(m.bid, m.eid) !in start
      modifies this`lastEid, this`streamId, this`log
      ensures Valid() && Extends(start, log) && log == old(log) + [Published(m.bid, m.eid)]
    {
      ExtendsAround(start, log, m.bid, m.eid);
      Note(Published(m.bid, m.eid));
    }

    /** The messages of an out-of-band fetch, in order. */
    method HandleOob(m: Msg)
      requires Valid() && KnownBuffers(m, buffers) && m.kind.OobInclude? && m.kind.oob.OobLines?
      modifies this
      ensures Valid() && Extends(old(log), log) && calls >= old(calls)
      ensures Slots(backlogPages, buffers) <= old(Slots(backlogPages, buffers))
      ensures HandlesAll(server, old(log), m.kind.oob.lines, log)
      decreases Slots(backlogPages, buffers), m, 2
    {
      var lines := m.kind.oob.lines;
      HandlesNone(server, log, lines);
      for i := 0 to |lines|
        invariant Valid() && calls >= old(calls)
        invariant Slots(backlogPages, buffers) <= old(Slots(backlogPages, buffers))
        invariant HandlesAll(server, old(log), lines[..i], log)
      {
        ghost var before := log;
        ProcessMessage(lines[i]);
        HandlesOneMore(server, old(log), lines, i, before, log);
      }
      assert lines[..|lines|] == lines;
    }

    /** The switch on the message type. */
    method HandleKind(m: Msg)
      requires Valid() && KnownBuffers(m, buffers)
      modifies this
      ensures Valid() && calls >= old(calls)
      ensures Slots(backlogPages, buffers) <= old(Slots(backlogPages, buffers))
      ensures Acted(server, old(log), m, log, Span(old(calls), calls))
      decreases Slots(backlogPages, buffers), m, 3
    {
      match m.kind {
        case Header(id) =>
          ExtendsByNote(log, Connected(id));
          Note(Connected(id));
        case OobInclude(OobFailed) =>
          ExtendsByNote(log, Restarted);
          Note(Restarted);
        case OobInclude(OobLines(lines)) =>
          HandleOob(m);
        case MakeBuffer(minEid, deferred) =>
          if deferred {
            ghost var pulled := PullBacklog(m.bid, minEid, m);
          }
        case _ =>
      }
    }

    /** Counts a backlog request, then makes it. */
    method Backlog(bid: int, before: nat) returns (answer: Answer)
      requires Valid() && PagesOf(backlogPages, bid) < MAX_BACKLOG_PAGES && bid in buffers
      modifies this`backlogPages, this`calls, this`log
      ensures Valid() && log == old(log) + [Requested(bid, before)] && Extends(old(log), log)
      ensures Slots(backlogPages, buffers) < old(Slots(backlogPages, buffers))
      ensures answer == server(bid, before, old(calls)) && calls == old(calls) + 1
    {
      NoteCounts(log, Requested(bid, before));
      ExtendsByNote(log, Requested(bid, before));
      var n := PagesOf(backlogPages, bid);
      backlogPages := backlogPages[bid := n + 1];
      log := log + [Requested(bid, before)];
      answer := server(bid, before, calls);
      calls := calls + 1;
      assert (bid, n) in old(Slots(backlogPages, buffers));
      assert (bid, n) !in Slots(backlogPages, buffers);
    }

    /** Handles a page in order while tracking its earliest event. */
    method ProcessPage(lines: seq<Msg>, ghost slots: set<(int, nat)>, ghost cause: Msg) returns (earliest: nat)
      requires Valid() && forall l <- lines :: KnownBuffers(l, buffers)
      requires Slots(backlogPages, buffers) < slots
      modifies this
      ensures Valid() && Extends(old(log), log) && calls >= old(calls)
      ensures Slots(backlogPages, buffers) <= old(Slots(backlogPages, buffers))
      ensures earliest == Earliest(lines) && HandlesAll(server, old(log), lines, log)
      decreases slots, cause, 0
    {
      earliest := 0;
      HandlesNone(server, log, lines);
      for i := 0 to |lines|
        invariant Valid() && calls >= old(calls)
        invariant Slots(backlogPages, buffers) <= old(Slots(backlogPages, buffers))
        invariant earliest == Earliest(lines[..i]) && HandlesAll(server, old(log), lines[..i], log)
      {
        ghost var before := log;
        OneMoreLine(lines, i);
        if lines[i].eid > 0 && (earliest == 0 || lines[i].eid < earliest) {
          earliest := lines[i].eid;
        }
        ProcessMessage(lines[i]);
        HandlesOneMore(server, old(log), lines, i, before, log);
      }
      assert lines[..|lines|] == lines;
    }

    /** One turn of the backlog loop: count the request, make it, handle the page. */
    method PullPage(bid: int, before: nat, ghost slots: set<(int, nat)>, ghost cause: Msg)
      returns (answer: Answer, earliest: nat)
      requires Valid() && bid in buffers && PagesOf(backlogPages, bid) < MAX_BACKLOG_PAGES
      requires Slots(backlogPages, buffers) <= slots
      modifies this
      ensures Valid() && Extends(old(log), log) && calls >= old(calls)
      ensures Slots(backlogPages, buffers) < old(Slots(backlogPages, buffers))
      ensures Answers(server, bid, before, answer, Span(old(calls), calls))
      ensures answer.Page? ==> earliest == Earliest(answer.lines) && AllHandled(answer.lines, log)
      ensures Turn(server, bid, old(log), before, answer, log)
      decreases slots, cause, 1
    {
      earliest := 0;
      ghost var log0, n := log, calls;
      answer := Backlog(bid, before);
      assert server(bid, before, n) == answer;
      if answer.Page? {
        ghost var log1 := log;
        earliest := ProcessPage(answer.lines, slots, cause);
        ExtendsChain(log0, log1, log);
      }
    }

    /**
      Fetches a buffer's history page by page, each page from before the earliest event of the previous one. The
      ghost result is the list of positions asked for and pages received.
     */
    method PullBacklog(bid: int, minEid: nat, ghost cause: Msg) returns (ghost pulled: seq<(nat, seq<Msg>)>)
      requires Valid() && bid in buffers
      modifies this
      ensures Valid() && Extends(old(log), log) && calls >= old(calls)
      ensures Slots(backlogPages, buffers) <= old(Slots(backlogPages, buffers))
      ensures HistoryPulled(server, bid, minEid, pulled, log, Span(old(calls), calls))
      ensures Pulls(server, old(log), bid, minEid, 0, log)
      decreases Slots(backlogPages, buffers), cause, 2
    {
      pulled := [];
      ghost var start, log0, calls0 := Slots(backlogPages, buffers), log, calls;
      var before: nat := 0;
      PullStarts(server, bid, minEid, log, calls);
      while PagesOf(backlogPages, bid) < MAX_BACKLOG_PAGES
        invariant Valid() && calls0 <= calls
        invariant Slots(backlogPages, buffers) <= start
        invariant Pulling(server, bid, minEid, log0, pulled, before, log, Span(calls0, calls))
        decreases Slots(backlogPages, buffers)
      {
        ghost var log1, span := log, Span(calls0, calls);
        var answer, earliest := PullPage(bid, before, start, cause);
        if answer.BacklogFailed? {
          PullFails(server, bid, minEid, log0, pulled, before, log1, span, log, calls);
          return;
        }
        PageIsPulled(server, bid, minEid, log0, pulled, before, log1, span, answer.lines, log, calls);
        pulled := pulled + [(before, answer.lines)];
        if earliest == 0 || earliest <= minEid {
          return;
        }
        before := earliest;
      }
      PullExhausts(server, bid, minEid, log0, pulled, before, log, Span(calls0, calls));
    }

    /** The connection loop: one stream after another feeds the same state. */
    method RunStream(msgs: seq<Msg>)
      requires Valid() && forall m <- msgs :: KnownBuffers(m, buffers)
      modifies this
      ensures Valid() && Extends(old(log), log)
      ensures forall b :: Requests(log, b) <= MAX_BACKLOG_PAGES
      ensures forall m <- msgs :: Tracked(m.bid, m.eid) ==>
                Published(m.bid, m.eid) in log || Handled(m.bid, m.eid) in old(log)
      ensures HandlesAll(server, old(log), msgs, log) && forall m <- msgs :: Followed(server, m, log)
    {
      HandlesNone(server, log, msgs);
      for i := 0 to |msgs|
        invariant Valid() && HandlesAll(server, old(log), msgs[..i], log)
      {
        ghost var before := log;
        ProcessMessage(msgs[i]);
        HandlesOneMore(server, old(log), msgs, i, before, log);
      }
      assert msgs[..|msgs|] == msgs;
      AllTakenAreFollowed(server, old(log), msgs, log);
      assert log == old(log) + log[|old(log)|..];
    }
  }
}
