/**
  The listing handler (`getScheduledEmails`): optional filters on the status
  name, matched case-insensitively, and on the sender's email address, with the
  result ordered newest first by creation time.
*/
module Listing {
  import opened Domain
  import opened Seqs

  /** A stored message joined with its sender's address; `createdAt` in ms. */
  datatype Record = Record(id: nat, senderEmail: string, recipient: string, status: Status, createdAt: int)

  /**
    `toUpperCase` on one character, as far as it can matter for comparing with a
    status name: ASCII letters, and the two other characters whose upper case
    is an ASCII letter (U+017F long s and U+0131 dotless i).
  */
  function UpperChar(c: char): (u: char)
    ensures 'a' <= c <= 'z' ==> u as int == c as int - 32
    ensures ('A' <= c <= 'Z' || c == '\U{017F}' || c == '\U{0131}') ==> 'A' <= u <= 'Z'
    ensures c == '\U{017F}' ==> u == 'S'
    ensures c == '\U{0131}' ==> u == 'I'
    ensures !('a' <= c <= 'z') && c != '\U{017F}' && c != '\U{0131}' ==> u == c
  {
    if 'a' <= c <= 'z' then (c as int - 32) as char
    else if c == '\U{017F}' then 'S'
    else if c == '\U{0131}' then 'I'
    else c
  }

  function Upper(s: string): (u: string)
    ensures |u| == |s|
    ensures forall i :: 0 <= i < |s| ==> u[i] == UpperChar(s[i])
  {
    seq(|s|, i requires 0 <= i < |s| => UpperChar(s[i]))
  }

  /** Upper-casing twice is upper-casing once. */
  lemma UpperIdempotent(s: string)
    ensures Upper(Upper(s)) == Upper(s)
  {
    assert forall i :: 0 <= i < |s| ==> UpperChar(UpperChar(s[i])) == UpperChar(s[i]);
  }

  /** Status names are already upper case, so a query spelled exactly like one selects it. */
  lemma StatusNamesAreUpperCase(st: Status)
    ensures Upper(StatusName(st)) == StatusName(st)
  {
    var n := StatusName(st);
    assert forall i :: 0 <= i < |n| ==> 'A' <= n[i] <= 'Z';
  }

  /** A query string; the empty string is falsy and filters nothing, like an absent parameter. */
  predicate IsGiven(q: Option<string>)
  {
    q.Some? && q.value != []
  }

  /** The `where` clause the handler builds. */
  predicate Matches(statusQuery: Option<string>, senderEmail: Option<string>, r: Record): (m: bool)
    ensures !IsGiven(statusQuery) && !IsGiven(senderEmail) ==> m
    ensures m && IsGiven(statusQuery) ==> Upper(statusQuery.value) in {"PENDING", "THROTTLED", "SENT", "FAILED"}
    ensures m && IsGiven(senderEmail) ==> r.senderEmail == senderEmail.value
    ensures IsGiven(statusQuery) && m ==> StatusName(r.status) == Upper(statusQuery.value)
    ensures IsGiven(senderEmail) && r.senderEmail != senderEmail.value ==> !m
    ensures !IsGiven(statusQuery) && IsGiven(senderEmail) && r.senderEmail == senderEmail.value ==> m
  {
    && (IsGiven(statusQuery) ==> StatusName(r.status) == Upper(statusQuery.value))
    && (IsGiven(senderEmail) ==> r.senderEmail == senderEmail.value)
  }

  /** Newest first. */
  predicate SortedDesc(s: seq<Record>)
  {
    forall i, j :: 0 <= i < j < |s| ==> s[i].createdAt >= s[j].createdAt
  }

  /** Places `r` in front of the first record that is not newer than it. */
  function InsertDesc(r: Record, s: seq<Record>): (t: seq<Record>)
    ensures |t| == |s| + 1
    decreases |s|
  {
    if s == [] then [r]
    else if r.createdAt >= s[0].createdAt then [r] + s
    else [s[0]] + InsertDesc(r, s[1..])
  }

  /** Inserting adds exactly one copy of `r` and loses nothing. */
  lemma {:induction false} InsertDescPermutes(r: Record, s: seq<Record>)
    ensures multiset(InsertDesc(r, s)) == multiset(s) + multiset{r}
    decreases |s|
  {
    if s != [] && r.createdAt < s[0].createdAt {
      InsertDescPermutes(r, s[1..]);
      assert s == [s[0]] + s[1..];
    }
  }

  /** Inserting into a newest-first list keeps it newest first. */
  lemma {:induction false} InsertDescSorted(r: Record, s: seq<Record>)
    requires SortedDesc(s)
    ensures SortedDesc(InsertDesc(r, s))
    decreases |s|
  {
    if s != [] && r.createdAt < s[0].createdAt {
      InsertDescSorted(r, s[1..]);
      InsertDescBounded(r, s[1..], s[0].createdAt);
    }
  }

  /** Inserting a record no newer than `bound` into records no newer than `bound` yields records no newer than `bound`. */
  lemma {:induction false} InsertDescBounded(r: Record, s: seq<Record>, bound: int)
    requires r.createdAt <= bound
    requires forall k :: 0 <= k < |s| ==> s[k].createdAt <= bound
    ensures forall k :: 0 <= k < |InsertDesc(r, s)| ==> InsertDesc(r, s)[k].createdAt <= bound
    decreases |s|
  {
    if s != [] && r.createdAt < s[0].createdAt {
      InsertDescBounded(r, s[1..], bound);
    }
  }

  /** Orders records newest first; records created at the same instant keep their stored order. */
  function SortDesc(s: seq<Record>): (t: seq<Record>)
    ensures |t| == |s|
    decreases |s|
  {
    if s == [] then [] else InsertDesc(s[0], SortDesc(s[1..]))
  }

  /** Sorting yields a newest-first rearrangement of its input. */
  lemma {:induction false} SortDescSortsAndPermutes(s: seq<Record>)
    ensures SortedDesc(SortDesc(s))
    ensures multiset(SortDesc(s)) == multiset(s)
    decreases |s|
  {
    if s != [] {
      SortDescSortsAndPermutes(s[1..]);
      InsertDescSorted(s[0], SortDesc(s[1..]));
      InsertDescPermutes(s[0], SortDesc(s[1..]));
      assert s == [s[0]] + s[1..];
    }
  }

  /**
    The listing: the stored records that match both filters, each as often as
    it is stored, newest first.
  */
  function ListScheduled(records: seq<Record>, statusQuery: Option<string>, senderEmail: Option<string>): (list: seq<Record>)
    ensures SortedDesc(list)
    ensures multiset(list) == multiset(Filter(r => Matches(statusQuery, senderEmail, r), records))
  {
    SortDescSortsAndPermutes(Filter(r => Matches(statusQuery, senderEmail, r), records));
    SortDesc(Filter(r => Matches(statusQuery, senderEmail, r), records))
  }

  /** A record is listed exactly when it is stored and matches both filters. */
  lemma ListingHoldsExactlyTheMatches(records: seq<Record>, statusQuery: Option<string>, senderEmail: Option<string>)
    ensures var list := ListScheduled(records, statusQuery, senderEmail);
      && (forall k :: 0 <= k < |list| ==> list[k] in records && Matches(statusQuery, senderEmail, list[k]))
      && (forall k :: 0 <= k < |records| && Matches(statusQuery, senderEmail, records[k]) ==> records[k] in list)
  {
    var list := ListScheduled(records, statusQuery, senderEmail);
    var matching := Filter(r => Matches(statusQuery, senderEmail, r), records);
    forall k | 0 <= k < |list| ensures list[k] in matching {
      assert list[k] in multiset(list);
    }
    forall k | 0 <= k < |records| && Matches(statusQuery, senderEmail, records[k]) ensures records[k] in list {
      assert records[k] in multiset(matching);
    }
  }

  /**
    With a status query given, the listing holds only records whose status name
    is the upper-cased query, and every stored record with that status (from
    the given sender, if one is given) is listed.
  */
  lemma ListingByStatus(records: seq<Record>, q: string, senderEmail: Option<string>)
    requires q != []
    ensures var list := ListScheduled(records, Some(q), senderEmail);
      && (forall k :: 0 <= k < |list| ==> StatusName(list[k].status) == Upper(q))
      && (forall k ::
            (0 <= k < |records| && StatusName(records[k].status) == Upper(q)
             && (IsGiven(senderEmail) ==> records[k].senderEmail == senderEmail.value))
            ==> records[k] in list)
  {
    ListingHoldsExactlyTheMatches(records, Some(q), senderEmail);
  }

  /**
    With only a sender filter given, the listing holds exactly that sender's
    stored records, whatever their status.
  */
  lemma ListingBySender(records: seq<Record>, statusQuery: Option<string>, e: string)
    requires e != []
    requires !IsGiven(statusQuery)
    ensures var list := ListScheduled(records, statusQuery, Some(e));
      && (forall k :: 0 <= k < |list| ==> list[k] in records && list[k].senderEmail == e)
      && (forall k :: 0 <= k < |records| && records[k].senderEmail == e ==> records[k] in list)
  {
    ListingHoldsExactlyTheMatches(records, statusQuery, Some(e));
  }

  /** The status filter ignores case: a query and its upper-cased spelling list the same records. */
  lemma StatusQueryIgnoresCase(records: seq<Record>, q: string, senderEmail: Option<string>)
    ensures ListScheduled(records, Some(q), senderEmail) == ListScheduled(records, Some(Upper(q)), senderEmail)
  {
    UpperIdempotent(q);
    FilterExtensional(r => Matches(Some(q), senderEmail, r), r => Matches(Some(Upper(q)), senderEmail, r), records);
  }

  /** A status query that names no status lists nothing. */
  lemma UnknownStatusListsNothing(records: seq<Record>, q: string, senderEmail: Option<string>)
    requires q != []
    requires forall st: Status :: Upper(q) != StatusName(st)
    ensures ListScheduled(records, Some(q), senderEmail) == []
  {
    var list := ListScheduled(records, Some(q), senderEmail);
    if list != [] {
      assert false;
    }
  }
}
