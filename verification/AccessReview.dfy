/** The access-review observation: the latest completed campaign and whether it is recent enough. */
module AccessReview {
  import opened Texts
  import opened Counting
  import opened Dates

  datatype Campaign = Campaign(id: Text, status: Text, closedOn: Option<Date>)

  const REQUIRED_INTERVAL_DAYS := 92

  function Completed(): Campaign -> bool {
    (c: Campaign) => Lower(c.status) == Lit("completed") && c.closedOn.Some?
  }

  predicate ValidCampaigns(campaigns: seq<Campaign>) {
    forall c | c in campaigns && c.closedOn.Some? :: Valid(c.closedOn.value)
  }

  /** `max(completed, key=lambda row: str(row["closed_on"]))`: the first of the greatest texts. */
  function Latest(completed: seq<Campaign>): (r: Campaign)
    requires completed != [] && forall c | c in completed :: c.closedOn.Some? && Valid(c.closedOn.value)
    ensures r in completed
  {
    if |completed| == 1 then completed[0]
    else
      var best, next := Latest(completed[..|completed| - 1]), completed[|completed| - 1];
      if LexLe(Iso(next.closedOn.value), Iso(best.closedOn.value)) then best else next
  }

  datatype Status = Status(latest: Option<Campaign>, daysSince: Option<int>, within: bool)

  /** The computed part of `access_review_status`. */
  function StatusOf(campaigns: seq<Campaign>, asAt: Date): Status
    requires ValidCampaigns(campaigns)
  {
    var completed := Filter(Completed(), campaigns);
    if completed == [] then Status(None, None, false)
    else
      CompletedValid(campaigns);
      var latest := Latest(completed);
      LatestListed(completed);
      var days := Ordinal(asAt) - Ordinal(latest.closedOn.value);
      Status(Some(latest), Some(days), days <= REQUIRED_INTERVAL_DAYS)
  }

  lemma CompletedValid(campaigns: seq<Campaign>)
    requires ValidCampaigns(campaigns)
    ensures forall c | c in Filter(Completed(), campaigns) :: c.closedOn.Some? && Valid(c.closedOn.value)
  {
    forall c | c in Filter(Completed(), campaigns) ensures c.closedOn.Some? && Valid(c.closedOn.value) {
      FilterMembers(Completed(), campaigns, c);
    }
  }

  /** The greatest text is the latest day. */
  lemma {:induction false} LatestListed(completed: seq<Campaign>)
    requires completed != [] && forall c | c in completed :: c.closedOn.Some? && Valid(c.closedOn.value)
    ensures Latest(completed) in completed
    ensures forall c | c in completed :: Ordinal(c.closedOn.value) <= Ordinal(Latest(completed).closedOn.value)
  {
    if |completed| > 1 {
      var front, next := completed[..|completed| - 1], completed[|completed| - 1];
      assert completed == front + [next];
      LatestListed(front);
      IsoOrder(next.closedOn.value, Latest(front).closedOn.value);
    }
  }

  /** The interval is met exactly when some completed campaign closed in the last 92 days, or after the date asked. */
  lemma WithinInterval(campaigns: seq<Campaign>, asAt: Date)
    requires ValidCampaigns(campaigns)
    ensures StatusOf(campaigns, asAt).within
      <==> exists c | c in campaigns :: Completed()(c) && Ordinal(asAt) - Ordinal(c.closedOn.value) <= REQUIRED_INTERVAL_DAYS
  {
    var completed := Filter(Completed(), campaigns);
    forall c: Campaign ensures c in completed <==> c in campaigns && Completed()(c) {
      FilterMembers(Completed(), campaigns, c);
    }
    if completed != [] {
      CompletedValid(campaigns);
      LatestListed(completed);
    }
  }

  /** The status speaks of the completed campaign that closed last, and of the days since. */
  lemma StatusMeans(campaigns: seq<Campaign>, asAt: Date)
    requires ValidCampaigns(campaigns)
    ensures var status := StatusOf(campaigns, asAt);
      && (status.latest.None? <==> forall c | c in campaigns :: !HasClosed(c))
      && (status.latest.None? ==> status.daysSince == None && !status.within)
      && (status.latest.Some? ==>
            var latest := status.latest.value;
            && latest in campaigns && HasClosed(latest)
            && (forall c | c in campaigns && HasClosed(c) ::
                  Ordinal(c.closedOn.value) <= Ordinal(latest.closedOn.value))
            && status.daysSince == Some(Ordinal(asAt) - Ordinal(latest.closedOn.value))
            && (status.within <==> Ordinal(asAt) - Ordinal(latest.closedOn.value) <= 92))
  {
    hide Ordinal, Lit, Lower, Latest, Filter, Valid;
    var completed := Filter(Completed(), campaigns);
    forall c: Campaign ensures c in completed <==> c in campaigns && HasClosed(c) {
      FilterMembers(Completed(), campaigns, c);
    }
    if completed != [] {
      assert completed[0] in completed;
      CompletedValid(campaigns);
      LatestListed(completed);
    }
  }

  /** Completed, in any case of its letters, and with a closing date. */
  predicate HasClosed(c: Campaign) {
    Lower(c.status) == Lit("completed") && c.closedOn.Some?
  }
}
