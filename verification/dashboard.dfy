/**
  The dashboard: the two tabs over the fetched list of scheduled emails and the
  two counters shown beside them. Rows carry their status as the string the
  server sent.
*/
module Dashboard {
  import opened Domain
  import opened Seqs

  /** A fetched row; only the status decides which tab shows it. */
  datatype EmailView = EmailView(id: nat, recipient: string, subject: string, status: string)

  datatype Tab = ScheduledTab | SentTab

  /** The status names the page's row type declares; `COMPLETED` is declared but never produced by the server. */
  predicate IsDeclaredStatus(s: string)
  {
    s == "PENDING" || s == "SENT" || s == "FAILED" || s == "THROTTLED" || s == "COMPLETED"
  }

  predicate IsScheduledStatus(s: string)
  {
    s == "PENDING" || s == "THROTTLED"
  }

  predicate IsSentStatus(s: string)
  {
    s == "SENT" || s == "COMPLETED" || s == "FAILED"
  }

  predicate ShownOn(tab: Tab, e: EmailView)
  {
    match tab
    case ScheduledTab => IsScheduledStatus(e.status)
    case SentTab => IsSentStatus(e.status)
  }

  /** The rows the active tab lists, in fetched order. */
  function FilteredEmails(emails: seq<EmailView>, tab: Tab): (rows: seq<EmailView>)
    ensures forall k :: 0 <= k < |rows| ==> rows[k] in emails && ShownOn(tab, rows[k])
    ensures forall k :: 0 <= k < |emails| && ShownOn(tab, emails[k]) ==> emails[k] in rows
  {
    Filter(e => ShownOn(tab, e), emails)
  }

  /** The condition the "scheduled" counter tests, written out on its own beside the tab's. */
  predicate CountedAsScheduled(e: EmailView)
  {
    e.status == "PENDING" || e.status == "THROTTLED"
  }

  /** The condition the "sent" counter tests. */
  predicate CountedAsSent(e: EmailView)
  {
    e.status == "SENT" || e.status == "COMPLETED" || e.status == "FAILED"
  }

  /** The counter beside the "scheduled" tab. */
  function ScheduledCount(emails: seq<EmailView>): (n: nat)
    ensures n <= |emails|
    ensures (forall k :: 0 <= k < |emails| ==> CountedAsScheduled(emails[k])) ==> n == |emails|
  {
    var rows := Filter(CountedAsScheduled, emails);
    assert (forall k :: 0 <= k < |emails| ==> CountedAsScheduled(emails[k])) ==> rows == emails by {
      if forall k :: 0 <= k < |emails| ==> CountedAsScheduled(emails[k]) {
        FilterExtensional(CountedAsScheduled, _ => true, emails);
        FilterAll(emails);
      }
    }
    |rows|
  }

  /** The counter beside the "sent" tab. */
  function SentCount(emails: seq<EmailView>): (n: nat)
    ensures n <= |emails|
    ensures (forall k :: 0 <= k < |emails| ==> CountedAsSent(emails[k])) ==> n == |emails|
  {
    var rows := Filter(CountedAsSent, emails);
    assert (forall k :: 0 <= k < |emails| ==> CountedAsSent(emails[k])) ==> rows == emails by {
      if forall k :: 0 <= k < |emails| ==> CountedAsSent(emails[k]) {
        FilterExtensional(CountedAsSent, _ => true, emails);
        FilterAll(emails);
      }
    }
    |rows|
  }

  /** Keeping everything keeps the list as it is. */
  lemma {:induction false} FilterAll(emails: seq<EmailView>)
    ensures Filter(_ => true, emails) == emails
    decreases |emails|
  {
    if emails != [] {
      FilterAll(emails[1..]);
      assert emails == [emails[0]] + emails[1..];
    }
  }

  /** Each tab keeps the fetched order of the rows it shows. */
  lemma TabKeepsFetchedOrder(emails: seq<EmailView>, tab: Tab)
    ensures IsSubsequence(FilteredEmails(emails, tab), emails)
  {
    FilterIsSubsequence(e => ShownOn(tab, e), emails);
  }

  /** No row is listed on both tabs. */
  lemma TabsAreDisjoint(e: EmailView)
    ensures !(ShownOn(ScheduledTab, e) && ShownOn(SentTab, e))
    ensures ShownOn(ScheduledTab, e) || ShownOn(SentTab, e) <==> IsDeclaredStatus(e.status)
  {
  }

  /** Each counter is the number of rows its tab lists. */
  lemma CountsMatchTabs(emails: seq<EmailView>)
    ensures ScheduledCount(emails) == |FilteredEmails(emails, ScheduledTab)|
    ensures SentCount(emails) == |FilteredEmails(emails, SentTab)|
  {
    FilterExtensional(CountedAsScheduled, e => ShownOn(ScheduledTab, e), emails);
    FilterExtensional(CountedAsSent, e => ShownOn(SentTab, e), emails);
  }

  /** When every row carries a declared status, the two counters add up to the number of rows. */
  lemma CountsCoverDeclaredRows(emails: seq<EmailView>)
    requires forall k :: 0 <= k < |emails| ==> IsDeclaredStatus(emails[k].status)
    ensures ScheduledCount(emails) + SentCount(emails) == |emails|
  {
    ComplementaryFiltersCover(CountedAsScheduled, CountedAsSent, emails);
  }

  /** Every status the server stores reaches the page as a declared name: PENDING and THROTTLED are scheduled, SENT and FAILED sent. */
  lemma ServerStatusesLandOnATab(s: Status)
    ensures IsDeclaredStatus(StatusName(s))
    ensures IsScheduledStatus(StatusName(s)) <==> s == Pending || s == Throttled
    ensures IsSentStatus(StatusName(s)) <==> s == Sent || s == Failed
  {
  }
}
