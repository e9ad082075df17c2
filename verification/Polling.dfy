/**
 * steps/poll_anchor_confirmation.go with the Verify methods behind it: how replies are classified and
 * combined, and how confirmation levels move when any number of polls overlap.
 */
module Polling {
  import opened Bytes

  /** A confirmation string; anything else ranks with pending, as a missing map key does. */
  datatype Level = Pending | Confirmed | Finalized | Other(text: GoString)

  function Rank(l: Level): (n: nat)
    ensures n <= 2
  {
    match l
    case Finalized => 2
    case Confirmed => 1
    case _ => 0
  }

  datatype Verification = Verification(confirmation: Level, swallowed: bool)

  /** A hard error carries nothing the handler looks at. */
  type Verdict = Result<Verification, ()>

  // ---- providers/opentimestamps: one calendar ----

  /** What came back from a calendar: nothing usable, or an HTTP status. */
  datatype Reply = NoAnswer | Status(code: int)

  datatype Outcome = Upgraded | StillPending | Transient | Rejected

  function CheckUpgrade(r: Reply): Outcome {
    match r
    case NoAnswer => Transient
    case Status(code) =>
      if code == 200 then Upgraded
      else if code == 404 then StillPending
      else if code >= 500 then Transient
      else if code >= 400 then Rejected
      else Transient
  }

  // ---- providers/opentimestamps: all calendars ----

  predicate Any(replies: seq<Reply>, o: Outcome) {
    exists i :: 0 <= i < |replies| && CheckUpgrade(replies[i]) == o
  }

  /**
   * The contract of Verify, calendar order left out: any rejection is an error, any upgrade confirms, trouble
   * without an upgrade is swallowed.
   */
  function Aggregated(replies: seq<Reply>, level: Level): Verdict {
    if Any(replies, Rejected) then Err(())
    else Ok(Verification(
      if Any(replies, Upgraded) && level == Pending then Confirmed else level,
      Any(replies, Transient) && !Any(replies, Upgraded)))
  }

  lemma AnySnoc(replies: seq<Reply>, i: nat)
    requires i < |replies|
    ensures forall o :: Any(replies[..i + 1], o) <==> Any(replies[..i], o) || CheckUpgrade(replies[i]) == o
  {
    var longer, shorter := replies[..i + 1], replies[..i];
    assert longer == shorter + [replies[i]];
    forall o
      ensures Any(longer, o) <==> Any(shorter, o) || CheckUpgrade(replies[i]) == o
    {
      if Any(shorter, o) {
        var k :| 0 <= k < i && CheckUpgrade(shorter[k]) == o;
        assert CheckUpgrade(longer[k]) == o;
      }
      if CheckUpgrade(replies[i]) == o {
        assert CheckUpgrade(longer[i]) == o;
      }
    }
  }

  lemma AnyOfPrefix(replies: seq<Reply>, n: nat, o: Outcome)
    requires n <= |replies| && Any(replies[..n], o)
    ensures Any(replies, o)
  {
  }

  lemma AnyPermuted(a: seq<Reply>, b: seq<Reply>, o: Outcome)
    requires multiset(a) == multiset(b) && Any(a, o)
    ensures Any(b, o)
  {
    var i :| 0 <= i < |a| && CheckUpgrade(a[i]) == o;
    assert a[i] in multiset(b);
  }

  /** The order in which calendars are listed does not matter. */
  lemma CalendarOrderIrrelevant(a: seq<Reply>, b: seq<Reply>, level: Level)
    requires multiset(a) == multiset(b)
    ensures Aggregated(a, level) == Aggregated(b, level)
  {
    forall o
      ensures Any(a, o) <==> Any(b, o)
    {
      if Any(a, o) {
        AnyPermuted(a, b, o);
      }
      if Any(b, o) {
        AnyPermuted(b, a, o);
      }
    }
  }

  /**
   * The swallow contract: client errors other than 404 abort; a swallowed result keeps the level; the
   * level moves only from pending to confirmed, and exactly when some calendar answers 200.
   */
  lemma CalendarContract(replies: seq<Reply>, level: Level)
    ensures Aggregated(replies, level).Err? <==>
              exists i :: 0 <= i < |replies| && replies[i].Status? && 400 <= replies[i].code < 500 &&
                  replies[i].code != 404
    ensures Aggregated(replies, level).Ok? ==>
              var v := Aggregated(replies, level).value;
              && (v.swallowed ==> v.confirmation == level)
              && (v.confirmation != level <==> level == Pending && Status(200) in replies)
              && (v.swallowed <==>
                    Status(200) !in replies && exists i :: 0 <= i < |replies| && replies[i] != Status(404))
  {
    forall i | 0 <= i < |replies| && replies[i].Status? && 400 <= replies[i].code < 500 && replies[i].code != 404
      ensures Any(replies, Rejected)
    {
      assert CheckUpgrade(replies[i]) == Rejected;
    }
    if Status(200) in replies {
      var i :| 0 <= i < |replies| && replies[i] == Status(200);
      assert CheckUpgrade(replies[i]) == Upgraded;
    }
    if Aggregated(replies, level).Ok? {
      forall i | 0 <= i < |replies| && replies[i] != Status(404) && replies[i] != Status(200)
        ensures Any(replies, Transient)
      {
        assert CheckUpgrade(replies[i]) != Rejected;
        assert CheckUpgrade(replies[i]) == Transient;
      }
    }
  }

  // ---- providers/git and providers/sigstore ----

  /** ls-remote answers or not. */
  function VerifyGit(proofOk: bool, reachable: bool, level: Level): Verdict {
    if !proofOk then Err(())
    else if !reachable then Ok(Verification(level, true))
    else Ok(Verification(Finalized, false))
  }

  datatype RekorReply = Found | NotFound | Refused(code: int) | Unreachable

  function VerifyRekor(proofOk: bool, reply: RekorReply, level: Level): Verdict {
    if !proofOk then Err(())
    else
      match reply
      case Found => Ok(Verification(Finalized, false))
      case NotFound => Err(())
      case Refused(code) => if 400 <= code < 500 then Err(()) else Ok(Verification(level, true))
      case Unreachable => Ok(Verification(level, true))
  }

  // ---- overlapping polls ----

  datatype Kind = Calendars | Git | Rekor | Custom

  /** What a provider was told, by kind; a custom provider may answer anything. */
  datatype Answer =
    | FromCalendars(proof: Option<seq<Reply>>)
    | FromGit(proofOk: bool, reachable: bool)
    | FromRekor(proofOk: bool, reply: RekorReply)
    | FromCustom(verdict: Verdict)

  function KindOf(a: Answer): Kind {
    match a
    case FromCalendars(_) => Calendars
    case FromGit(_, _) => Git
    case FromRekor(_, _) => Rekor
    case FromCustom(_) => Custom
  }

  function VerdictOf(a: Answer, level: Level): Verdict {
    match a
    case FromCalendars(proof) => if proof.None? then Err(()) else Aggregated(proof.value, level)
    case FromGit(proofOk, reachable) => VerifyGit(proofOk, reachable, level)
    case FromRekor(proofOk, reply) => VerifyRekor(proofOk, reply, level)
    case FromCustom(verdict) => verdict
  }

  /** Calendars: malformed proof data is an error, and otherwise their replies decide as CalendarContract says. */
  lemma CalendarsVerdict(replies: seq<Reply>, level: Level)
    ensures VerdictOf(FromCalendars(None), level).Err?
    ensures VerdictOf(FromCalendars(Some(replies)), level) == Aggregated(replies, level)
  {
  }

  /** Git: a remote that answers finalizes, one that does not is swallowed, and bad proof data is an error. */
  lemma GitContract(proofOk: bool, reachable: bool, level: Level)
    ensures var v := VerdictOf(FromGit(proofOk, reachable), level);
            && (v.Err? <==> !proofOk)
            && (proofOk && reachable ==> v == Ok(Verification(Finalized, false)))
            && (proofOk && !reachable ==> v == Ok(Verification(level, true)))
  {
  }

  /**
   * Rekor: an entry that is found finalizes; one that is missing, any client error and bad proof data are errors;
   * a server error, any other answer and no answer are swallowed.
   */
  lemma RekorContract(proofOk: bool, reply: RekorReply, level: Level)
    ensures var v := VerdictOf(FromRekor(proofOk, reply), level);
            && (v.Err? <==> !proofOk || reply == NotFound || (reply.Refused? && 400 <= reply.code <= 499))
            && (proofOk && reply == Found ==> v == Ok(Verification(Finalized, false)))
            && (proofOk && (reply == Unreachable || (reply.Refused? && (reply.code < 400 || 500 <= reply.code))) ==>
                  v == Ok(Verification(level, true)))
  {
  }

  /** Verify's loop. The proof data is None when it does not unmarshal; otherwise one reply per receipt. */
  method VerifyCalendars(proof: Option<seq<Reply>>, level: Level) returns (r: Verdict)
    ensures r == VerdictOf(FromCalendars(proof), level)
  {
    if proof.None? {
      return Err(());
    }
    var replies := proof.value;
    var current, confirmed, transients := level, false, 0;
    for i := 0 to |replies|
      invariant confirmed <==> Any(replies[..i], Upgraded)
      invariant transients > 0 <==> Any(replies[..i], Transient)
      invariant transients >= 0 && !Any(replies[..i], Rejected)
    {
      var o := CheckUpgrade(replies[i]);
      AnySnoc(replies, i);
      if o == Rejected {
        AnyOfPrefix(replies, i + 1, Rejected);
        return Err(());
      }
      if o == Transient {
        transients := transients + 1;
        continue;
      }
      if o == Upgraded {
        confirmed := true;
      }
    }
    assert replies[..|replies|] == replies;
    if confirmed && current == Pending {
      current := Confirmed;
    }
    return Ok(Verification(current, transients > 0 && !confirmed));
  }

  type AnchorId = int
  type PollId = nat

  /** The row's own provider, and its confirmation column. */
  datatype Anchor = Anchor(kind: Kind, level: Level)

  /** A poll between its SELECT and its provider's answer, or between that answer and its UPDATE. */
  datatype Poll = Reading(id: AnchorId, prev: Level) | Updating(id: AnchorId, next: Level)

  datatype Polls = Polls(rows: map<AnchorId, Anchor>, open: map<PollId, Poll>)

  /** A poll may be abandoned at any point: its context ends, or its UPDATE fails. */
  datatype Event =
    | Read(p: PollId, id: AnchorId)
    | Verify(p: PollId, answer: Answer)
    | Update(p: PollId)
    | Abandon(p: PollId)

  /** The forward-only guard, applied to the level read at the start. */
  predicate Forward(v: Verdict, prev: Level) {
    v.Ok? && !v.value.swallowed && Rank(v.value.confirmation) > Rank(prev)
  }

  /** Only these transitions are written: to confirmed from below it, and to finalized from below it. */
  lemma ForwardIs(v: Verdict, prev: Level)
    ensures Forward(v, prev) <==>
              && v.Ok? && !v.value.swallowed
              && ((v.value.confirmation == Confirmed && prev !in {Confirmed, Finalized})
                  || (v.value.confirmation == Finalized && prev != Finalized))
  {
  }

  /** One statement of somebody's poll; None when it cannot run now. A poll with nothing to write is over. */
  function Step(s: Polls, e: Event): Option<Polls> {
    match e
    case Read(p, id) =>
      if p in s.open then None
      else if id !in s.rows then Some(s)
      else Some(s.(open := s.open[p := Reading(id, s.rows[id].level)]))
    case Verify(p, answer) =>
      if p !in s.open || !s.open[p].Reading? then None
      else
        var Reading(id, prev) := s.open[p];
        var v := VerdictOf(answer, prev);
        if Forward(v, prev) then Some(s.(open := s.open[p := Updating(id, v.value.confirmation)]))
        else Some(s.(open := s.open - {p}))
    case Update(p) =>
      if p !in s.open || !s.open[p].Updating? then None
      else
        var Updating(id, next) := s.open[p];
        Some(Polls(if id in s.rows then s.rows[id := s.rows[id].(level := next)] else s.rows, s.open - {p}))
    case Abandon(p) => if p in s.open then Some(s.(open := s.open - {p})) else None
  }

  function Run(s: Polls, events: seq<Event>): Option<Polls>
    decreases |events|
  {
    if events == [] then Some(s)
    else
      match Step(s, events[0])
      case None => None
      case Some(n) => Run(n, events[1..])
  }

  /** Every row as it was, or at a higher level; no row lost or given to another provider. */
  ghost predicate MovedForward(s: Polls, s': Polls) {
    && s'.rows.Keys == s.rows.Keys
    && forall id :: id in s.rows ==>
          s'.rows[id].kind == s.rows[id].kind && Rank(s.rows[id].level) <= Rank(s'.rows[id].level)
  }

  // ---- shipped providers ----

  /** The levels a shipped provider's row can have, beginning with the one Anchor returns. */
  predicate LevelFits(kind: Kind, level: Level) {
    match kind
    case Calendars => level == Pending || level == Confirmed
    case Git => level == Finalized
    case Rekor => level == Finalized
    case Custom => false
  }

  /** The polled anchor is asked about at its own provider. */
  predicate OwnProvider(s: Polls, e: Event) {
    e.Verify? && e.p in s.open && s.open[e.p].id in s.rows ==> KindOf(e.answer) == s.rows[s.open[e.p].id].kind
  }

  predicate OwnProviders(s: Polls, events: seq<Event>)
    decreases |events|
  {
    events != [] ==>
      && OwnProvider(s, events[0])
      && (Step(s, events[0]).Some? ==> OwnProviders(Step(s, events[0]).value, events[1..]))
  }

  predicate PollFits(s: Polls, poll: Poll) {
    poll.id in s.rows &&
    var row := s.rows[poll.id];
    match poll
    case Reading(_, prev) => LevelFits(row.kind, prev)
    case Updating(_, next) => row.kind == Calendars && next == Confirmed
  }

  ghost predicate Shipped(s: Polls) {
    && (forall id :: id in s.rows ==> LevelFits(s.rows[id].kind, s.rows[id].level))
    && (forall p :: p in s.open ==> PollFits(s, s.open[p]))
  }

  /** A shipped provider's answer moves forward only as calendars do, from pending to confirmed. */
  lemma ShippedAnswer(a: Answer, prev: Level)
    requires LevelFits(KindOf(a), prev) && Forward(VerdictOf(a, prev), prev)
    ensures a.FromCalendars? && VerdictOf(a, prev).value.confirmation == Confirmed
  {
  }

  lemma ShippedStep(s: Polls, e: Event, s': Polls)
    requires Shipped(s) && OwnProvider(s, e) && Step(s, e) == Some(s')
    ensures Shipped(s') && MovedForward(s, s')
  {
    if e.Verify? {
      assert PollFits(s, s.open[e.p]);
      if Forward(VerdictOf(e.answer, s.open[e.p].prev), s.open[e.p].prev) {
        ShippedAnswer(e.answer, s.open[e.p].prev);
      }
    }
    if e.Update? {
      assert PollFits(s, s.open[e.p]);
    }
    forall p | p in s'.open
      ensures PollFits(s', s'.open[p])
    {
      if p in s.open {
        assert PollFits(s, s.open[p]);
      }
    }
  }

  /**
   * However many polls of calendar, git and Sigstore anchors overlap, each at its anchor's own provider,
   * no stored level ever goes down: calendar rows stay pending or confirmed, git and Sigstore rows stay
   * finalized. The handler does not compare the provider named by the poll with the row's.
   */
  lemma {:induction false} PollsMoveForward(s: Polls, events: seq<Event>, s': Polls)
    requires Shipped(s) && OwnProviders(s, events) && Run(s, events) == Some(s')
    ensures Shipped(s') && MovedForward(s, s')
    decreases |events|
  {
    if events != [] {
      var n := Step(s, events[0]).value;
      ShippedStep(s, events[0], n);
      PollsMoveForward(n, events[1..], s');
    }
  }

  // ---- any provider, polls one at a time ----

  /** A poll starts only when no other one is open. */
  predicate OneAtATime(s: Polls, events: seq<Event>)
    decreases |events|
  {
    events != [] ==>
      && (events[0].Read? ==> s.open == map[])
      && (Step(s, events[0]).Some? ==> OneAtATime(Step(s, events[0]).value, events[1..]))
  }

  predicate Fresh(s: Polls, poll: Poll) {
    poll.id in s.rows &&
    match poll
    case Reading(id, prev) => prev == s.rows[id].level
    case Updating(id, next) => Rank(next) > Rank(s.rows[id].level)
  }

  ghost predicate Alone(s: Polls) {
    && (forall p, q :: p in s.open && q in s.open ==> p == q)
    && (forall p :: p in s.open ==> Fresh(s, s.open[p]))
  }

  /** The UPDATE statements a run executes on one row. */
  function Updates(s: Polls, events: seq<Event>, id: AnchorId): nat
    decreases |events|
  {
    if events == [] || Step(s, events[0]).None? then 0
    else
      var e := events[0];
      (if e.Update? && e.p in s.open && s.open[e.p].id == id then 1 else 0) + Updates(Step(s, e).value, events[1..], id)
  }

  lemma AloneStep(s: Polls, e: Event, s': Polls)
    requires Alone(s) && (e.Read? ==> s.open == map[]) && Step(s, e) == Some(s')
    ensures Alone(s') && MovedForward(s, s')
    ensures e.Update? ==>
              s.open[e.p].id in s.rows && Rank(s.rows[s.open[e.p].id].level) < Rank(s'.rows[s.open[e.p].id].level)
  {
    if !e.Read? {
      assert Fresh(s, s.open[e.p]);
    }
  }

  /**
   * With polls one at a time, whatever the provider answers: levels never go down, and each row is updated at
   * most twice.
   */
  lemma {:induction false} OneAtATimeMovesForward(s: Polls, events: seq<Event>, s': Polls, id: AnchorId)
    requires Alone(s) && OneAtATime(s, events) && Run(s, events) == Some(s') && id in s.rows
    ensures MovedForward(s, s')
    ensures Rank(s.rows[id].level) + Updates(s, events, id) <= Rank(s'.rows[id].level) <= 2
    decreases |events|
  {
    if events != [] {
      var n := Step(s, events[0]).value;
      AloneStep(s, events[0], n);
      OneAtATimeMovesForward(n, events[1..], s', id);
    }
  }

  // ---- any providers, polls overlapping ----

  /**
   * The answers that polls of a row, told a level, may get. A poll may name any registered provider,
   * so these are the answers of all of them together.
   */
  type Offers = (AnchorId, Level, Answer) -> bool

  predicate StepAllowed(offers: Offers, s: Polls, e: Event) {
    e.Verify? && e.p in s.open && s.open[e.p].Reading? ==> offers(s.open[e.p].id, s.open[e.p].prev, e.answer)
  }

  /** A run in which every answer is one that may be given. */
  predicate Reaches(offers: Offers, s: Polls, events: seq<Event>, s': Polls)
    decreases |events|
  {
    if events == [] then s == s'
    else
      && StepAllowed(offers, s, events[0])
      && Step(s, events[0]).Some?
      && Reaches(offers, Step(s, events[0]).value, events[1..], s')
  }

  function NoPolls(rows: map<AnchorId, Anchor>): Polls {
    Polls(rows, map[])
  }

  /** However polls overlap, no level is ever lower than it was at any time before. */
  ghost predicate NeverDown(offers: Offers, rows: map<AnchorId, Anchor>) {
    forall before, m, after, n ::
      Reaches(offers, NoPolls(rows), before, m) && Reaches(offers, m, after, n) ==> MovedForward(m, n)
  }

  /** A poll of the row, told prev, may be told next without swallowing. */
  ghost predicate Reports(offers: Offers, id: AnchorId, prev: Level, next: Level) {
    exists a :: offers(id, prev, a) && VerdictOf(a, prev) == Ok(Verification(next, false))
  }

  /** From an unconfirmed level the row may be reported confirmed, and may also get to finalized. */
  ghost predicate ReportsBoth(offers: Offers, id: AnchorId, level: Level) {
    && Rank(level) == 0
    && Reports(offers, id, level, Confirmed)
    && (Reports(offers, id, level, Finalized) || Reports(offers, id, Confirmed, Finalized))
  }

  /** The one level that updates can write when not both are reported. */
  ghost function Top(offers: Offers, id: AnchorId, level: Level): Level {
    if Rank(level) == 0 && Reports(offers, id, level, Confirmed) then Confirmed else Finalized
  }

  ghost predicate PollTwoLevels(offers: Offers, rows: map<AnchorId, Anchor>, poll: Poll) {
    poll.id in rows &&
    var level := rows[poll.id].level;
    match poll
    case Reading(id, prev) => prev in {level, Top(offers, id, level)}
    case Updating(id, next) => next == Top(offers, id, level)
  }

  /** Every row is at its first level or at the one that updates write. */
  ghost predicate TwoLevels(offers: Offers, rows: map<AnchorId, Anchor>, s: Polls) {
    && s.rows.Keys == rows.Keys
    && (forall id :: id in rows ==> s.rows[id].level in {rows[id].level, Top(offers, id, rows[id].level)})
    && (forall p :: p in s.open ==> PollTwoLevels(offers, rows, s.open[p]))
  }

  ghost predicate NoneReportsBoth(offers: Offers, rows: map<AnchorId, Anchor>) {
    forall id :: id in rows ==> !ReportsBoth(offers, id, rows[id].level)
  }

  /** An answer that moves a row forward moves it to the one level. */
  lemma OnlyToTop(offers: Offers, id: AnchorId, level: Level, prev: Level, a: Answer)
    requires !ReportsBoth(offers, id, level) && prev in {level, Top(offers, id, level)}
    requires offers(id, prev, a) && Forward(VerdictOf(a, prev), prev)
    ensures VerdictOf(a, prev).value.confirmation == Top(offers, id, level)
  {
    assert Reports(offers, id, prev, VerdictOf(a, prev).value.confirmation);
  }

  lemma TwoLevelsStep(offers: Offers, rows: map<AnchorId, Anchor>, s: Polls, e: Event, s': Polls)
    requires NoneReportsBoth(offers, rows) && TwoLevels(offers, rows, s)
    requires StepAllowed(offers, s, e) && Step(s, e) == Some(s')
    ensures TwoLevels(offers, rows, s') && MovedForward(s, s')
  {
    if !e.Read? {
      var poll := s.open[e.p];
      assert PollTwoLevels(offers, rows, poll);
      assert !ReportsBoth(offers, poll.id, rows[poll.id].level);
      if e.Verify? && Forward(VerdictOf(e.answer, poll.prev), poll.prev) {
        OnlyToTop(offers, poll.id, rows[poll.id].level, poll.prev, e.answer);
      }
    }
    forall p | p in s'.open
      ensures PollTwoLevels(offers, rows, s'.open[p])
    {
      if p in s.open {
        assert PollTwoLevels(offers, rows, s.open[p]);
      }
    }
  }

  lemma {:induction false} TwoLevelsRun(
      offers: Offers, rows: map<AnchorId, Anchor>, s: Polls, events: seq<Event>, s': Polls)
    requires NoneReportsBoth(offers, rows) && TwoLevels(offers, rows, s) && Reaches(offers, s, events, s')
    ensures TwoLevels(offers, rows, s') && MovedForward(s, s')
    decreases |events|
  {
    if events != [] {
      var n := Step(s, events[0]).value;
      TwoLevelsStep(offers, rows, s, events[0], n);
      TwoLevelsRun(offers, rows, n, events[1..], s');
    }
  }

  lemma {:induction false} ReachesSnoc(offers: Offers, s: Polls, events: seq<Event>, m: Polls, e: Event, n: Polls)
    requires Reaches(offers, s, events, m) && StepAllowed(offers, m, e) && Step(m, e) == Some(n)
    ensures Reaches(offers, s, events + [e], n)
    decreases |events|
  {
    if events == [] {
      assert (events + [e])[1..] == [];
    } else {
      assert (events + [e])[1..] == events[1..] + [e];
      ReachesSnoc(offers, Step(s, events[0]).value, events[1..], m, e, n);
    }
  }

  function AtLevel(rows: map<AnchorId, Anchor>, id: AnchorId, level: Level): map<AnchorId, Anchor>
    requires id in rows
  {
    rows[id := rows[id].(level := level)]
  }

  /** A poll that read the first level and was told confirmed, but has not written yet. */
  lemma SlowPoll(offers: Offers, rows: map<AnchorId, Anchor>, id: AnchorId) returns (events: seq<Event>)
    requires id in rows && Rank(rows[id].level) == 0 && Reports(offers, id, rows[id].level, Confirmed)
    ensures Reaches(offers, NoPolls(rows), events, Polls(rows, map[0 := Updating(id, Confirmed)]))
  {
    var s, level := NoPolls(rows), rows[id].level;
    var a :| offers(id, level, a) && VerdictOf(a, level) == Ok(Verification(Confirmed, false));
    var s1 := Polls(rows, map[0 := Reading(id, level)]);
    var s2 := Polls(rows, map[0 := Updating(id, Confirmed)]);
    assert Step(s, Read(0, id)) == Some(s1);
    assert s1.open[0 := Updating(id, Confirmed)] == s2.open;
    assert Step(s1, Verify(0, a)) == Some(s2);
    ReachesSnoc(offers, s, [], s, Read(0, id), s1);
    ReachesSnoc(offers, s, [] + [Read(0, id)], s1, Verify(0, a), s2);
    events := [] + [Read(0, id)] + [Verify(0, a)];
  }

  /** Meanwhile another poll of the row runs from start to end. */
  lemma QuickPoll(offers: Offers, s: Polls, before: seq<Event>, rows: map<AnchorId, Anchor>, id: AnchorId, next: Level)
      returns (events: seq<Event>)
    requires id in rows && Reports(offers, id, rows[id].level, next) && Rank(rows[id].level) < Rank(next)
    requires Reaches(offers, s, before, Polls(rows, map[0 := Updating(id, Confirmed)]))
    ensures Reaches(offers, s, events, Polls(AtLevel(rows, id, next), map[0 := Updating(id, Confirmed)]))
  {
    var slow, level := Updating(id, Confirmed), rows[id].level;
    var a :| offers(id, level, a) && VerdictOf(a, level) == Ok(Verification(next, false));
    var m := Polls(rows, map[0 := slow]);
    var m1 := Polls(rows, map[0 := slow, 1 := Reading(id, level)]);
    var m2 := Polls(rows, map[0 := slow, 1 := Updating(id, next)]);
    var m3 := Polls(AtLevel(rows, id, next), map[0 := slow]);
    assert Step(m, Read(1, id)) == Some(m1);
    assert m1.open[1 := Updating(id, next)] == m2.open;
    assert Step(m1, Verify(1, a)) == Some(m2);
    assert m2.open - {1} == m3.open;
    assert Step(m2, Update(1)) == Some(m3);
    ReachesSnoc(offers, s, before, m, Read(1, id), m1);
    ReachesSnoc(offers, s, before + [Read(1, id)], m1, Verify(1, a), m2);
    ReachesSnoc(offers, s, before + [Read(1, id)] + [Verify(1, a)], m2, Update(1), m3);
    events := before + [Read(1, id)] + [Verify(1, a)] + [Update(1)];
  }

  /** The overlap that overwrites finalized with confirmed. */
  lemma Downgrade(offers: Offers, rows: map<AnchorId, Anchor>, id: AnchorId)
    requires id in rows && ReportsBoth(offers, id, rows[id].level)
    ensures !NeverDown(offers, rows)
  {
    var s, level, top := NoPolls(rows), rows[id].level, AtLevel(rows, id, Finalized);
    var events := SlowPoll(offers, rows, id);
    if Reports(offers, id, level, Finalized) {
      events := QuickPoll(offers, s, events, rows, id, Finalized);
    } else {
      events := QuickPoll(offers, s, events, rows, id, Confirmed);
      events := QuickPoll(offers, s, events, AtLevel(rows, id, Confirmed), id, Finalized);
      assert AtLevel(AtLevel(rows, id, Confirmed), id, Finalized) == top;
    }
    var m := Polls(top, map[0 := Updating(id, Confirmed)]);
    var n := NoPolls(AtLevel(top, id, Confirmed));
    assert m.open - {0} == n.open;
    assert Step(m, Update(0)) == Some(n);
    ReachesSnoc(offers, m, [], m, Update(0), n);
    assert Reaches(offers, s, events, m) && Reaches(offers, m, [] + [Update(0)], n);
    assert !MovedForward(m, n);
  }

  /**
   * The guard compares with the level read at the start, the UPDATE does not compare again. So with
   * overlapping polls levels never go down exactly when no row may, from an unconfirmed level, both be
   * reported confirmed and get to finalized, by one provider or by several.
   */
  lemma NeverDownIff(offers: Offers, rows: map<AnchorId, Anchor>)
    ensures NeverDown(offers, rows) <==> NoneReportsBoth(offers, rows)
  {
    if NoneReportsBoth(offers, rows) {
      forall before, m, after, n | Reaches(offers, NoPolls(rows), before, m) && Reaches(offers, m, after, n)
        ensures MovedForward(m, n)
      {
        TwoLevelsRun(offers, rows, NoPolls(rows), before, m);
        TwoLevelsRun(offers, rows, m, after, n);
      }
    } else {
      var id :| id in rows && ReportsBoth(offers, id, rows[id].level);
      Downgrade(offers, rows, id);
    }
  }

  // ---- shipped providers, named freely ----

  /** Polls of a row name providers of these kinds only. */
  function AnswersOf(named: AnchorId -> set<Kind>): Offers {
    (id: AnchorId, prev: Level, a: Answer) => KindOf(a) in named(id)
  }

  /** Polls of one row name the calendars and also a provider that finalizes. */
  predicate Mixes(kinds: set<Kind>) {
    Calendars in kinds && (Git in kinds || Rekor in kinds)
  }

  /** What shipped providers report: calendars lift pending to confirmed, the others finalize. */
  lemma ShippedReports(named: AnchorId -> set<Kind>, id: AnchorId, prev: Level)
    requires Custom !in named(id)
    ensures Reports(AnswersOf(named), id, prev, Confirmed) <==> Calendars in named(id) && prev in {Pending, Confirmed}
    ensures Reports(AnswersOf(named), id, prev, Finalized) <==>
              Git in named(id) || Rekor in named(id) || (Calendars in named(id) && prev == Finalized)
  {
    var offers := AnswersOf(named);
    var calendars := FromCalendars(Some([Status(if prev == Pending then 200 else 404)]));
    var next := if prev == Pending then Confirmed else prev;
    assert CheckUpgrade([Status(200)][0]) == Upgraded && CheckUpgrade([Status(404)][0]) == StillPending;
    assert VerdictOf(calendars, prev) == Ok(Verification(next, false));
    assert VerdictOf(FromGit(true, true), prev) == Ok(Verification(Finalized, false));
    assert VerdictOf(FromRekor(true, Found), prev) == Ok(Verification(Finalized, false));
    assert offers(id, prev, calendars) <==> Calendars in named(id);
    assert offers(id, prev, FromGit(true, true)) <==> Git in named(id);
    assert offers(id, prev, FromRekor(true, Found)) <==> Rekor in named(id);
  }

  /**
   * Polls may name any shipped provider: levels never go down exactly when no pending row is polled
   * both at calendars and at a provider that finalizes.
   */
  lemma ShippedNeverDownIff(named: AnchorId -> set<Kind>, rows: map<AnchorId, Anchor>)
    requires forall id :: id in rows ==> Custom !in named(id)
    ensures NeverDown(AnswersOf(named), rows) <==>
              forall id :: id in rows && rows[id].level == Pending ==> !Mixes(named(id))
  {
    NeverDownIff(AnswersOf(named), rows);
    forall id | id in rows
      ensures ReportsBoth(AnswersOf(named), id, rows[id].level) <==> rows[id].level == Pending && Mixes(named(id))
    {
      ShippedReports(named, id, rows[id].level);
      ShippedReports(named, id, Confirmed);
    }
  }

  lemma RunCons(s: Polls, e: Event, n: Polls, rest: seq<Event>)
    requires Step(s, e) == Some(n)
    ensures Run(s, [e] + rest) == Run(n, rest)
    ensures OwnProviders(s, [e] + rest) <==> OwnProvider(s, e) && OwnProviders(n, rest)
  {
    assert ([e] + rest)[1..] == rest;
  }

  /** A poll at the calendars, and meanwhile one of the same row at git. */
  function MixedEvents(id: AnchorId, rest: seq<Event>): seq<Event> {
    [Read(0, id)] + ([Verify(0, FromCalendars(Some([Status(200)])))] +
      ([Read(1, id)] + ([Verify(1, FromGit(true, true))] + ([Update(1)] + rest))))
  }

  lemma MixedRun(id: AnchorId, rest: seq<Event>)
    ensures var rows := map[id := Anchor(Calendars, Pending)];
            var m := Polls(AtLevel(rows, id, Finalized), map[0 := Updating(id, Confirmed)]);
            && Run(NoPolls(rows), MixedEvents(id, rest)) == Run(m, rest)
            && !OwnProviders(NoPolls(rows), MixedEvents(id, rest))
  {
    var rows := map[id := Anchor(Calendars, Pending)];
    var told, slow, s := FromCalendars(Some([Status(200)])), Updating(id, Confirmed), NoPolls(rows);
    var s1 := Polls(rows, map[0 := Reading(id, Pending)]);
    var s2 := Polls(rows, map[0 := slow]);
    var s3 := Polls(rows, map[0 := slow, 1 := Reading(id, Pending)]);
    var s4 := Polls(rows, map[0 := slow, 1 := Updating(id, Finalized)]);
    var s5 := Polls(AtLevel(rows, id, Finalized), map[0 := slow]);
    assert CheckUpgrade([Status(200)][0]) == Upgraded;
    assert VerdictOf(told, Pending) == Ok(Verification(Confirmed, false));
    assert s1.open[0 := slow] == s2.open;
    assert s3.open[1 := Updating(id, Finalized)] == s4.open && s4.open - {1} == s5.open;
    var after4 := [Update(1)] + rest;
    var after3 := [Verify(1, FromGit(true, true))] + after4;
    var after2 := [Read(1, id)] + after3;
    RunCons(s4, Update(1), s5, rest);
    RunCons(s3, Verify(1, FromGit(true, true)), s4, after4);
    RunCons(s2, Read(1, id), s3, after3);
    RunCons(s1, Verify(0, told), s2, after2);
    RunCons(s, Read(0, id), s1, [Verify(0, told)] + after2);
  }

  /** A pending calendar row, polled at its calendars and meanwhile at git: pending, finalized, confirmed. */
  lemma WrongProviderDowngrades(id: AnchorId)
    ensures var rows := map[id := Anchor(Calendars, Pending)];
            && Shipped(NoPolls(rows))
            && !OwnProviders(NoPolls(rows), MixedEvents(id, [Update(0)]))
            && Run(NoPolls(rows), MixedEvents(id, [])) ==
               Some(Polls(AtLevel(rows, id, Finalized), map[0 := Updating(id, Confirmed)]))
            && Run(NoPolls(rows), MixedEvents(id, [Update(0)])) == Some(NoPolls(AtLevel(rows, id, Confirmed)))
  {
    var rows := map[id := Anchor(Calendars, Pending)];
    var top := AtLevel(rows, id, Finalized);
    var m := Polls(top, map[0 := Updating(id, Confirmed)]);
    MixedRun(id, []);
    MixedRun(id, [Update(0)]);
    assert m.open - {0} == map[] && AtLevel(top, id, Confirmed) == AtLevel(rows, id, Confirmed);
    assert [Update(0)] + [] == [Update(0)];
    RunCons(m, Update(0), NoPolls(AtLevel(rows, id, Confirmed)), []);
  }

  // ---- one poll on the table ----

  datatype PollError =
    | LedgerRequired
    | NotRegistered
    | NoProvider
    | BadAnchorId
    | NoAnchor
    | HardError
    | StatementFailed

  /** The statement that the server does not carry out, if any. */
  datatype Outage = NoOutage | SelectFails | UpdateFails

  datatype PollResponse = PollResponse(previous: Level, current: Level, transitioned: bool, swallowed: bool)

  /** The handler's statements; the UPDATE only when the level moves forward. */
  function PollTrace(id: AnchorId, prev: Level, answer: Answer): seq<Event> {
    [Read(0, id), Verify(0, answer)] + if Forward(VerdictOf(answer, prev), prev) then [Update(0)] else []
  }

  function AfterPoll(rows: map<AnchorId, Anchor>, id: AnchorId, v: Verdict): map<AnchorId, Anchor>
    requires id in rows
  {
    if Forward(v, rows[id].level) then rows[id := rows[id].(level := v.value.confirmation)] else rows
  }

  /** Why a poll ends in an error. */
  function PollRefusal(
      registry: set<GoString>, rows: map<AnchorId, Anchor>,
      ledger: GoString, answer: Option<Answer>, anchorId: Option<AnchorId>, outage: Outage): Option<PollError>
  {
    if ledger == [] then Some(LedgerRequired)
    else if ledger !in registry then Some(NotRegistered)
    else if answer.None? then Some(NoProvider)
    else if anchorId.None? then Some(BadAnchorId)
    else if outage == SelectFails then Some(StatementFailed)
    else if anchorId.value !in rows then Some(NoAnchor)
    else
      var prev := rows[anchorId.value].level;
      if VerdictOf(answer.value, prev).Err? then Some(HardError)
      else if Forward(VerdictOf(answer.value, prev), prev) && outage == UpdateFails then Some(StatementFailed)
      else None
  }

  /** The refusals, each with all that has to hold for it. */
  lemma PollRefusalIs(
      registry: set<GoString>, rows: map<AnchorId, Anchor>,
      ledger: GoString, answer: Option<Answer>, anchorId: Option<AnchorId>, outage: Outage)
    ensures var r := PollRefusal(registry, rows, ledger, answer, anchorId, outage);
            var asked := ledger != [] && ledger in registry && answer.Some? && anchorId.Some?;
            var known := asked && outage != SelectFails && anchorId.value in rows;
            && (r == Some(LedgerRequired) <==> ledger == [])
            && (r == Some(NotRegistered) <==> ledger != [] && ledger !in registry)
            && (r == Some(NoProvider) <==> ledger != [] && ledger in registry && answer.None?)
            && (r == Some(BadAnchorId) <==> ledger != [] && ledger in registry && answer.Some? && anchorId.None?)
            && (r == Some(NoAnchor) <==> asked && outage != SelectFails && anchorId.value !in rows)
            && (r == Some(HardError) <==> known && VerdictOf(answer.value, rows[anchorId.value].level).Err?)
            && (r == Some(StatementFailed) <==>
                  || (asked && outage == SelectFails)
                  || (known && outage == UpdateFails
                      && Forward(VerdictOf(answer.value, rows[anchorId.value].level), rows[anchorId.value].level)))
  {
  }

  /** An undisturbed poll is a run, and it moves forward. */
  lemma PollRuns(rows: map<AnchorId, Anchor>, id: AnchorId, answer: Answer)
    requires id in rows
    ensures var after := AfterPoll(rows, id, VerdictOf(answer, rows[id].level));
            && Run(Polls(rows, map[]), PollTrace(id, rows[id].level, answer)) == Some(Polls(after, map[]))
            && MovedForward(Polls(rows, map[]), Polls(after, map[]))
  {
    var prev := rows[id].level;
    var v := VerdictOf(answer, prev);
    var trace := PollTrace(id, prev, answer);
    var s := Polls(rows, map[]);
    var s1 := Polls(rows, map[0 := Reading(id, prev)]);
    assert Step(s, trace[0]) == Some(s1);
    assert s1.open - {0} == map[];
    if Forward(v, prev) {
      var s2 := Polls(rows, map[0 := Updating(id, v.value.confirmation)]);
      assert s1.open[0 := Updating(id, v.value.confirmation)] == s2.open;
      assert s2.open - {0} == map[];
      var s3 := Step(s2, Update(0)).value;
      assert trace[1..][1..] == [Update(0)] && [Update(0)][1..] == [];
      assert Run(s2, [Update(0)]) == Some(s3);
      assert Run(s1, trace[1..]) == Some(s3);
    } else {
      assert trace[1..] == [Verify(0, answer)] && trace[1..][1..] == [];
      assert Run(s1, trace[1..]) == Some(s);
    }
  }

  class AnchorTable {
    var rows: map<AnchorId, Anchor>
    const registry: set<GoString>

    constructor (rows: map<AnchorId, Anchor>, registry: set<GoString>)
      ensures this.rows == rows && this.registry == registry
    {
      this.rows, this.registry := rows, registry;
    }

    /** The anchor id is None when it is no integer, the answer when the provider is not registered. */
    method PollConfirmation(ledger: GoString, answer: Option<Answer>, anchorId: Option<AnchorId>, outage: Outage)
      returns (r: Result<PollResponse, PollError>)
      modifies this
      ensures r.Err? ==> rows == old(rows)
      ensures r.Ok? ==> answer.Some? && anchorId.Some? && anchorId.value in old(rows)
                        && var prev := old(rows)[anchorId.value].level;
                           && VerdictOf(answer.value, prev).Ok?
                           && r.value.previous == prev
                           && rows == AfterPoll(old(rows), anchorId.value, VerdictOf(answer.value, prev))
                           && Run(Polls(old(rows), map[]), PollTrace(anchorId.value, prev, answer.value)) ==
                               Some(Polls(rows, map[]))
                           && (r.value.transitioned <==> rows != old(rows))
                           && (r.value.transitioned ==> rows[anchorId.value].level == r.value.current)
                           && r.value.swallowed == VerdictOf(answer.value, prev).value.swallowed
                           && (r.value.swallowed ==> !r.value.transitioned && r.value.current == prev)
                           && (!r.value.swallowed ==>
                                 r.value.current == VerdictOf(answer.value, prev).value.confirmation)
      ensures match PollRefusal(registry, old(rows), ledger, answer, anchorId, outage)
              case Some(e) => r == Err(e)
              case None => r.Ok?
      ensures MovedForward(Polls(old(rows), map[]), Polls(rows, map[]))
    {
      if ledger == [] {
        return Err(LedgerRequired);
      }
      if ledger !in registry {
        return Err(NotRegistered);
      }
      if answer.None? {
        return Err(NoProvider);
      }
      if anchorId.None? {
        return Err(BadAnchorId);
      }
      var id := anchorId.value;
      if outage == SelectFails {
        return Err(StatementFailed);
      }
      if id !in rows {
        return Err(NoAnchor);
      }
      var prev := rows[id].level;
      var verdict := VerdictOf(answer.value, prev);
      if verdict.Err? {
        return Err(HardError);
      }
      PollRuns(rows, id, answer.value);
      var v := verdict.value;
      if v.swallowed {
        return Ok(PollResponse(prev, prev, false, true));
      }
      var current := v.confirmation;
      var transitioned := Rank(current) > Rank(prev);
      if transitioned {
        if outage == UpdateFails {
          return Err(StatementFailed);
        }
        rows := rows[id := rows[id].(level := current)];
      }
      return Ok(PollResponse(prev, current, transitioned, false));
    }
  }
}
