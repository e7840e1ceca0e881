/** The SCM-01 population test: approved changes before merge. */
module Scm01 {
  import opened Texts
  import opened Counting
  import opened Dates
  import opened Timestamps

  datatype Pull = Pull(
    id: Text, repository: Text, mergedAt: Timestamp, approvals: nat, ticket: Option<Text>, exceptionKey: Option<Text>)

  datatype Ticket = Ticket(id: Text, status: Option<Text>)

  datatype ApprovedException = ApprovedException(key: Text, active: bool)

  datatype Class = OutOfPeriod | Excepted | Effective | ControlException

  datatype Finding = Finding(pull: Pull, ticketStatus: Option<Text>, classification: Class, isException: bool)

  datatype Report = Report(population: nat, exceptions: seq<Finding>, results: seq<Finding>, effective: bool)

  datatype Outcome = Completed(report: Report) | NoOffset(pull: Pull)

  const PERIOD_START := Ordinal(Date(2026, 7, 1)) * DAY
  const PERIOD_END := Ordinal(Date(2026, 8, 1)) * DAY - 1
  const REQUIRED_APPROVALS := 1

  /** `is_in_period`; a timestamp without an offset raises. */
  function IsInPeriod(t: Timestamp): Option<bool> {
    if t.offset.None? then None else Some(PERIOD_START <= t.local - t.offset.value <= PERIOD_END)
  }

  /** `ticket_by_id.get(id)`: the last ticket of an identifier wins. */
  function TicketOf(tickets: seq<Ticket>, id: Option<Text>): Option<Ticket> {
    if tickets == [] || id.None? then None
    else
      var last := tickets[|tickets| - 1];
      if last.id == id.value then Some(last) else TicketOf(tickets[..|tickets| - 1], id)
  }

  predicate IsExcepted(exceptions: seq<ApprovedException>, key: Option<Text>) {
    key.Some? && key.value != [] && exists e | e in exceptions :: e.active && e.key == key.value
  }

  function ClassOf(p: Pull, tickets: seq<Ticket>, exceptions: seq<ApprovedException>): Class {
    var ticket := TicketOf(tickets, p.ticket);
    if IsInPeriod(p.mergedAt) != Some(true) then OutOfPeriod
    else if IsExcepted(exceptions, p.exceptionKey) then Excepted
    else if p.approvals >= REQUIRED_APPROVALS && ticket.Some? && ticket.value.status == Some(Lit("Approved")) then Effective
    else ControlException
  }

  function FindingOf(p: Pull, tickets: seq<Ticket>, exceptions: seq<ApprovedException>): Finding {
    var ticket, classification := TicketOf(tickets, p.ticket), ClassOf(p, tickets, exceptions);
    Finding(p, if ticket.Some? then ticket.value.status else None, classification, classification == ControlException)
  }

  function FindingsOf(pulls: seq<Pull>, tickets: seq<Ticket>, exceptions: seq<ApprovedException>): seq<Finding> {
    seq(|pulls|, i requires 0 <= i < |pulls| => FindingOf(pulls[i], tickets, exceptions))
  }

  function Of(c: Class): Finding -> bool {
    (f: Finding) => f.classification == c
  }

  function InPeriod(): Finding -> bool {
    (f: Finding) => f.classification != OutOfPeriod
  }

  function Flagged(): Finding -> bool {
    (f: Finding) => f.isException
  }

  /** The dict comprehension over the tickets. */
  method TicketsById(tickets: seq<Ticket>) returns (ticketById: map<Text, Ticket>)
    ensures forall id: Text ::
      (if id in ticketById then Some(ticketById[id]) else None) == TicketOf(tickets, Some(id))
  {
    ticketById := map[];
    for i := 0 to |tickets|
      invariant forall id: Text ::
        (if id in ticketById then Some(ticketById[id]) else None) == TicketOf(tickets[..i], Some(id))
    {
      assert tickets[..i + 1][..i] == tickets[..i];
      ticketById := ticketById[tickets[i].id := tickets[i]];
    }
    assert tickets[..|tickets|] == tickets;
  }

  lemma NoTicket(tickets: seq<Ticket>)
    ensures TicketOf(tickets, None) == None
  {
  }

  lemma NoFindings(tickets: seq<Ticket>, exceptions: seq<ApprovedException>)
    ensures FindingsOf([], tickets, exceptions) == []
  {
  }

  lemma FindingsNext(pulls: seq<Pull>, i: int, tickets: seq<Ticket>, exceptions: seq<ApprovedException>)
    requires 0 <= i < |pulls|
    ensures FindingsOf(pulls[..i + 1], tickets, exceptions)
         == FindingsOf(pulls[..i], tickets, exceptions) + [FindingOf(pulls[i], tickets, exceptions)]
  {
    hide FindingOf;
  }

  lemma FindingsMatch(pulls: seq<Pull>, tickets: seq<Ticket>, exceptions: seq<ApprovedException>)
    ensures |FindingsOf(pulls, tickets, exceptions)| == |pulls|
    ensures forall f | f in FindingsOf(pulls, tickets, exceptions) :: f.isException <==> f.classification == ControlException
  {
  }

  lemma AllJudged(pulls: seq<Pull>, tickets: seq<Ticket>, exceptions: seq<ApprovedException>)
    ensures |FindingsOf(pulls, tickets, exceptions)| == |pulls|
    ensures forall i | 0 <= i < |pulls| ::
      Judged(FindingsOf(pulls, tickets, exceptions)[i], pulls[i], tickets, exceptions)
  {
    hide FindingOf, Judged;
    forall i | 0 <= i < |pulls| ensures Judged(FindingsOf(pulls, tickets, exceptions)[i], pulls[i], tickets, exceptions) {
      FindingMeans(pulls[i], tickets, exceptions);
    }
  }

  /** `run_scm_population_test`, after reading its three files. */
  method RunPopulationTest(pulls: seq<Pull>, tickets: seq<Ticket>, exceptions: seq<ApprovedException>)
    returns (outcome: Outcome)
    ensures outcome.NoOffset? <==> exists p | p in pulls :: p.mergedAt.offset.None?
    ensures outcome.Completed? ==> outcome.report.results == FindingsOf(pulls, tickets, exceptions)
    ensures outcome.Completed? ==> forall i | 0 <= i < |pulls| ::
      Judged(outcome.report.results[i], pulls[i], tickets, exceptions)
    ensures outcome.Completed? ==> outcome.report.exceptions == Filter(Of(ControlException), outcome.report.results)
    ensures outcome.Completed? ==>
      outcome.report.population + Count(Of(OutOfPeriod), outcome.report.results) == |pulls|
    ensures outcome.Completed? ==>
      (outcome.report.effective <==> forall f | f in outcome.report.results :: f.classification != ControlException)
  {
    hide Filter, Lit, TicketOf, FindingsOf;
    var ticketById := TicketsById(tickets);
    NoTicket(tickets);
    NoFindings(tickets, exceptions);
    var keys := set e | e in exceptions && e.active :: e.key;
    var results: seq<Finding> := [];
    for i := 0 to |pulls|
      invariant results == FindingsOf(pulls[..i], tickets, exceptions)
      invariant forall j | 0 <= j < i :: pulls[j].mergedAt.offset.Some?
    {
      var p := pulls[i];
      var ticket := if p.ticket.Some? && p.ticket.value in ticketById then Some(ticketById[p.ticket.value]) else None;
      var approved := p.approvals >= REQUIRED_APPROVALS;
      var ticketApproved := ticket.Some? && ticket.value.status == Some(Lit("Approved"));
      var within := IsInPeriod(p.mergedAt);
      if within.None? {
        assert p in pulls;
        return NoOffset(p);
      }
      var classification;
      if !within.value {
        classification := OutOfPeriod;
      } else if p.exceptionKey.Some? && p.exceptionKey.value != [] && p.exceptionKey.value in keys {
        classification := Excepted;
      } else if approved && ticketApproved {
        classification := Effective;
      } else {
        classification := ControlException;
      }
      FindingsNext(pulls, i, tickets, exceptions);
      assert ticket == TicketOf(tickets, p.ticket);
      assert classification == ClassOf(p, tickets, exceptions);
      results := results + [Finding(p, if ticket.Some? then ticket.value.status else None, classification, classification == ControlException)];
    }
    assert pulls[..|pulls|] == pulls;
    var inPeriod := Filter(InPeriod(), results);
    var found := Filter(Flagged(), inPeriod);
    FindingsMatch(pulls, tickets, exceptions);
    AllJudged(pulls, tickets, exceptions);
    FlaggedInPeriod(results);
    CountComplement(InPeriod(), Of(OutOfPeriod), results);
    CountZero(Of(ControlException), results);
    outcome := Completed(Report(|inPeriod|, found, results, found == []));
  }

  // ------------------------------------------------- on the records' own fields

  function TicketWith(id: Text): Ticket -> bool {
    (t: Ticket) => t.id == id
  }

  /** The moment, whatever the offset it is written with, lies in July 2026; days count from 1 January of year 1. */
  predicate InJuly(t: Timestamp) {
    t.offset.Some? && 739798 * 86_400_000_000 <= t.local - t.offset.value < 739829 * 86_400_000_000
  }

  /** An active exception carries the change's key, and the key is not empty. */
  predicate Waived(p: Pull, exceptions: seq<ApprovedException>) {
    p.exceptionKey.Some? && p.exceptionKey.value != []
    && exists e | e in exceptions :: e.active && e.key == p.exceptionKey.value
  }

  /** The last ticket of the change's identifier is this one. */
  predicate Ticketed(p: Pull, tickets: seq<Ticket>, k: int) {
    p.ticket.Some? && LastAt(TicketWith(p.ticket.value), tickets, k)
  }

  /** At least one approval, and the ticket approved. */
  predicate Cleared(p: Pull, tickets: seq<Ticket>) {
    p.approvals >= 1
    && exists k | 0 <= k < |tickets| :: Ticketed(p, tickets, k) && tickets[k].status == Some(Lit("Approved"))
  }

  /** The result shows its change, the ticket's status, and the class its records call for. */
  predicate Judged(f: Finding, p: Pull, tickets: seq<Ticket>, exceptions: seq<ApprovedException>) {
    && f.pull == p
    && (f.classification == OutOfPeriod <==> !InJuly(p.mergedAt))
    && (f.classification == Excepted <==> InJuly(p.mergedAt) && Waived(p, exceptions))
    && (f.classification == Effective <==> InJuly(p.mergedAt) && !Waived(p, exceptions) && Cleared(p, tickets))
    && (f.classification == ControlException
        <==> InJuly(p.mergedAt) && !Waived(p, exceptions) && !Cleared(p, tickets))
    && (f.isException <==> f.classification == ControlException)
    && (forall k | 0 <= k < |tickets| && Ticketed(p, tickets, k) :: f.ticketStatus == tickets[k].status)
    && ((forall k | 0 <= k < |tickets| :: Some(tickets[k].id) != p.ticket) ==> f.ticketStatus == None)
  }

  lemma {:induction false} LastTicket(tickets: seq<Ticket>, id: Text)
    ensures forall k | LastAt(TicketWith(id), tickets, k) :: TicketOf(tickets, Some(id)) == Some(tickets[k])
    ensures TicketOf(tickets, Some(id)).Some? ==> exists k :: LastAt(TicketWith(id), tickets, k)
    ensures TicketOf(tickets, Some(id)).Some? ==> exists k | 0 <= k < |tickets| :: tickets[k].id == id
  {
    if tickets != [] {
      var front := tickets[..|tickets| - 1];
      LastTicket(front, id);
      forall k ensures LastAt(TicketWith(id), tickets, k)
        <==> if tickets[|front|].id == id then k == |front| else LastAt(TicketWith(id), front, k)
      {
        LastOfFront(TicketWith(id), tickets, k);
      }
      if tickets[|front|].id == id {
        assert LastAt(TicketWith(id), tickets, |front|);
      }
    }
  }

  lemma PeriodMeans(t: Timestamp)
    ensures IsInPeriod(t) == Some(true) <==> InJuly(t)
  {
    Anchors();
    hide Ordinal;
  }

  lemma FindingMeans(p: Pull, tickets: seq<Ticket>, exceptions: seq<ApprovedException>)
    ensures Judged(FindingOf(p, tickets, exceptions), p, tickets, exceptions)
  {
    hide IsInPeriod, InJuly, Lit, TicketOf;
    PeriodMeans(p.mergedAt);
    NoTicket(tickets);
    if p.ticket.Some? {
      LastTicket(tickets, p.ticket.value);
      assert p.ticket == Some(p.ticket.value);
    }
  }

  lemma {:induction false} FlaggedInPeriod(results: seq<Finding>)
    requires forall f | f in results :: f.isException <==> f.classification == ControlException
    ensures Filter(Flagged(), Filter(InPeriod(), results)) == Filter(Of(ControlException), results)
  {
    if results != [] {
      assert results[0] in results;
      FlaggedInPeriod(results[1..]);
      var rest := Filter(InPeriod(), results[1..]);
      assert ([results[0]] + rest)[1..] == rest;
    }
  }

  /** Every change is in one of the four classes. */
  lemma {:induction false} ClassesPartition(results: seq<Finding>)
    ensures Count(Of(OutOfPeriod), results) + Count(Of(Excepted), results)
          + Count(Of(Effective), results) + Count(Of(ControlException), results) == |results|
  {
    if results != [] {
      ClassesPartition(results[1..]);
    }
  }

  /** The same instant written with another offset. */
  predicate SameInstant(a: Timestamp, b: Timestamp) {
    a.offset.Some? && b.offset.Some? && a.local - a.offset.value == b.local - b.offset.value
  }

  /** Half past midnight on the first of July, two hours east: the text is July's and the moment is June's. */
  lemma OffsetMatters()
    ensures var s := Stamp(Date(2026, 7, 1), 0, 30, 0, Shift(false, 2, 0));
      && ValidStamp(s) && Write(s)[..7] == Lit("2026-07")
      && Read(Write(s)).Some? && IsInPeriod(Read(Write(s)).value) == Some(false)
  {
    var s := Stamp(Date(2026, 7, 1), 0, 30, 0, Shift(false, 2, 0));
    ReadWritten(s);
    JulyPrefix(s);
  }

  lemma JulyPrefix(s: Stamp)
    requires ValidStamp(s) && s.date.year == 2026 && s.date.month == 7
    ensures |Write(s)| >= 7 && Write(s)[..7] == Lit("2026-07")
  {
    hide WriteZone;
    assert Pad(2026, 4) == Lit("2026") by {
      assert Pad(2, 1) == [50] && Pad(20, 2) == [50, 48] && Pad(202, 3) == [50, 48, 50];
    }
    assert Pad(7, 2) == Lit("07") by {
      assert Pad(0, 1) == [48];
    }
    assert Write(s)[..7] == Pad(2026, 4) + [HYPHEN] + Pad(7, 2) by {
      hide Pad;
    }
  }

  /** A merge time written with another offset for the same moment is read into the same class. */
  lemma RewrittenOffset(p: Pull, a: Stamp, b: Stamp, tickets: seq<Ticket>, exceptions: seq<ApprovedException>)
    requires ValidStamp(a) && ValidStamp(b) && SameInstant(Meaning(a), Meaning(b))
    ensures Read(Write(a)).Some? && Read(Write(b)).Some?
    ensures ClassOf(p.(mergedAt := Read(Write(a)).value), tickets, exceptions)
         == ClassOf(p.(mergedAt := Read(Write(b)).value), tickets, exceptions)
  {
    hide Read, Write, Ordinal;
    ReadWritten(a);
    ReadWritten(b);
  }

  /** A time written without an offset is refused, one with an offset or a `Z` never is. */
  lemma OffsetRequired(s: Stamp)
    requires ValidStamp(s)
    ensures Read(Write(s)).Some? && (IsInPeriod(Read(Write(s)).value).None? <==> s.zone.Naive?)
  {
    hide Read, Write, Ordinal;
    ReadWritten(s);
  }

  /** Rewriting the merge times with other offsets leaves every class as it was. */
  lemma OffsetInvariant(a: seq<Pull>, b: seq<Pull>, tickets: seq<Ticket>, exceptions: seq<ApprovedException>)
    requires |a| == |b|
    requires forall i | 0 <= i < |a| :: SameInstant(a[i].mergedAt, b[i].mergedAt) && b[i] == a[i].(mergedAt := b[i].mergedAt)
    ensures forall i | 0 <= i < |a| ::
      FindingsOf(a, tickets, exceptions)[i].classification == FindingsOf(b, tickets, exceptions)[i].classification
  {
    forall i | 0 <= i < |a| ensures ClassOf(a[i], tickets, exceptions) == ClassOf(b[i], tickets, exceptions) {
    }
  }

  predicate MoreExceptions(less: seq<ApprovedException>, more: seq<ApprovedException>) {
    forall e | e in less && e.active :: e in more
  }

  predicate MoreApprovals(less: Pull, more: Pull) {
    less.approvals <= more.approvals && more == less.(approvals := more.approvals)
  }

  /** The positions of the control exceptions, in order. */
  function ExceptionPositions(pulls: seq<Pull>, tickets: seq<Ticket>, exceptions: seq<ApprovedException>): seq<nat> {
    if pulls == [] then []
    else
      var n := |pulls| - 1;
      var front := ExceptionPositions(pulls[..n], tickets, exceptions);
      if ClassOf(pulls[n], tickets, exceptions) == ControlException then front + [n] else front
  }

  predicate Subsequence(a: seq<nat>, b: seq<nat>) {
    if a == [] then true
    else if b == [] then false
    else if a[|a| - 1] == b[|b| - 1] then Subsequence(a[..|a| - 1], b[..|b| - 1])
    else Subsequence(a, b[..|b| - 1])
  }

  lemma {:induction false} SubsequenceGrows(a: seq<nat>, b: seq<nat>, n: nat)
    requires Subsequence(a, b) && forall x | x in a :: x < n
    ensures Subsequence(a, b + [n]) && Subsequence(a + [n], b + [n])
  {
    assert (a + [n])[..|a|] == a && (b + [n])[..|b|] == b;
    if a != [] {
      assert a[|a| - 1] in a;
    }
  }

  lemma {:induction false} PositionsBelow(pulls: seq<Pull>, tickets: seq<Ticket>, exceptions: seq<ApprovedException>)
    ensures forall x | x in ExceptionPositions(pulls, tickets, exceptions) :: x < |pulls|
  {
    if pulls != [] {
      PositionsBelow(pulls[..|pulls| - 1], tickets, exceptions);
    }
  }

  /** More approvals and more active exceptions only take control exceptions away. */
  lemma {:induction false} ExceptionsShrink(less: seq<Pull>, more: seq<Pull>, tickets: seq<Ticket>,
    few: seq<ApprovedException>, many: seq<ApprovedException>)
    requires |less| == |more| && forall i | 0 <= i < |less| :: MoreApprovals(less[i], more[i])
    requires MoreExceptions(few, many)
    ensures Subsequence(ExceptionPositions(more, tickets, many), ExceptionPositions(less, tickets, few))
  {
    if less != [] {
      var n := |less| - 1;
      ExceptionsShrink(less[..n], more[..n], tickets, few, many);
      PositionsBelow(more[..n], tickets, many);
      assert MoreApprovals(less[n], more[n]);
      assert ClassOf(more[n], tickets, many) == ControlException ==> ClassOf(less[n], tickets, few) == ControlException;
      SubsequenceGrows(ExceptionPositions(more[..n], tickets, many), ExceptionPositions(less[..n], tickets, few), n);
    }
  }
}
