/**
  Admission of a campaign (the `scheduleEmail` handler): sender and recipient
  validation, the base delay, the stagger interval, and one PENDING message
  plus one delayed job per recipient. The handler reads the clock several
  times; the model reads it once, as `now`, in milliseconds.
*/
module Scheduling {
  import opened Domain

  /** A JavaScript value found in the `recipients` field or in one of its elements. */
  datatype RecipientValue = Undefined | Address(addr: string)

  /** The `recipients` field of the request body: an array, or any other value, a missing field included. */
  datatype RecipientsField = ArrayOf(items: seq<RecipientValue>) | NotArray(value: RecipientValue)

  /**
    A scheduling request. `sendAt` is the parsed target time (None when the field
    is absent or empty); `delay` is in seconds; `hourlyLimit` is messages per hour.
  */
  datatype Request = Request(
    senderId: string,
    recipients: RecipientsField,
    subject: string,
    body: string,
    sendAt: Option<int>,
    delay: Option<real>,
    hourlyLimit: Option<real>)

  datatype ScheduleError = SenderNotFound | NoRecipients

  /** A created message row; `sendAt` is the `scheduledFor` instant, `jobId` the backfilled job id. */
  datatype Message = Message(
    id: nat,
    senderId: string,
    recipient: RecipientValue,
    subject: string,
    body: string,
    sendAt: int,
    status: Status,
    jobId: nat)

  /** A job handed to the delayed queue: its id, its payload, and its delay in ms. */
  datatype QueuedJob = QueuedJob(jobId: nat, emailId: nat, senderId: string, delay: real)

  /** What one admitted request creates; `nextId` is the first id still unused afterwards. */
  datatype Campaign = Campaign(messages: seq<Message>, jobs: seq<QueuedJob>, nextId: nat)

  /** A non-array value is wrapped into a one-element list. */
  function RecipientList(f: RecipientsField): (list: seq<RecipientValue>)
    ensures list == [] <==> f == ArrayOf([])
    ensures f.NotArray? ==> list == [f.value]
    ensures f.ArrayOf? ==> list == f.items
  {
    match f
    case ArrayOf(items) => items
    case NotArray(v) => [v]
  }

  /** The JavaScript test `x && x > 0` on a numeric field: absent, zero and negative values fail it. */
  predicate IsSet(field: Option<real>)
  {
    field.Some? && field.value > 0.0
  }

  function MaxReal(a: real, b: real): real
  {
    if a >= b then a else b
  }

  /** How long the first message waits: until `sendAt` when it lies ahead, otherwise not at all. */
  function BaseDelay(now: int, sendAt: Option<int>): (d: int)
    ensures d >= 0
    ensures sendAt.Some? && sendAt.value >= now ==> now + d == sendAt.value
    ensures sendAt.None? || sendAt.value <= now ==> d == 0
  {
    var baseTime := if sendAt.Some? then sendAt.value else now;
    if baseTime - now > 0 then baseTime - now else 0
  }

  /**
    The gap between consecutive recipients: the larger of the spacing that keeps
    `hourlyLimit` messages per hour and the per-pair `delay`, each only when set.
  */
  function Interval(delay: Option<real>, hourlyLimit: Option<real>): (iv: real)
    ensures iv >= 0.0
    ensures iv > 0.0 <==> IsSet(delay) || IsSet(hourlyLimit)
    ensures IsSet(hourlyLimit) ==> iv * hourlyLimit.value >= 3600000.0
    ensures IsSet(delay) ==> iv >= delay.value * 1000.0
    ensures iv == 0.0
         || (IsSet(hourlyLimit) && iv == 3600000.0 / hourlyLimit.value)
         || (IsSet(delay) && iv == delay.value * 1000.0)
  {
    var afterLimit := if IsSet(hourlyLimit) then MaxReal(0.0, 3600000.0 / hourlyLimit.value) else 0.0;
    var afterDelay := if IsSet(delay) then MaxReal(afterLimit, delay.value * 1000.0) else afterLimit;
    assert IsSet(hourlyLimit) ==> (3600000.0 / hourlyLimit.value) * hourlyLimit.value == 3600000.0;
    afterDelay
  }

  /** The delay of the recipient at index `i`. */
  function EmailDelay(base: int, interval: real, i: nat): real
  {
    base as real + i as real * interval
  }

  /** The queued jobs of a campaign of `n` messages: job `i` carries id `nextId + i` and waits `base + i * interval`. */
  function CampaignJobs(nextId: nat, senderId: string, base: int, interval: real, n: nat): (jobs: seq<QueuedJob>)
    requires base >= 0 && interval >= 0.0
    ensures |jobs| == n
    ensures forall i :: 0 <= i < n ==> jobs[i].delay >= 0.0
  {
    var jobs := seq(n, i requires 0 <= i < n => QueuedJob(nextId + i, nextId + i, senderId, EmailDelay(base, interval, i)));
    assert forall i :: 0 <= i < n ==> jobs[i].delay >= 0.0 by {
      forall i | 0 <= i < n ensures jobs[i].delay >= 0.0 {
        assert i as real * interval >= 0.0;
      }
    }
    jobs
  }

  /** The message rows of a campaign, one per recipient, each PENDING and due when its job's delay runs out. */
  function CampaignMessages(now: int, nextId: nat, req: Request, recipients: seq<RecipientValue>, jobs: seq<QueuedJob>): (messages: seq<Message>)
    requires |jobs| == |recipients|
    ensures |messages| == |recipients|
  {
    seq(|recipients|, i requires 0 <= i < |recipients| =>
      Message(nextId + i, req.senderId, recipients[i], req.subject, req.body,
              (now as real + jobs[i].delay).Floor, Pending, nextId + i))
  }

  /** Admits one request at time `now`, numbering the new messages from `nextId`. */
  function Schedule(now: int, senders: map<string, Sender>, req: Request, nextId: nat): (r: Result<Campaign, ScheduleError>)
    requires now >= 0
    ensures req.senderId !in senders <==> r == Err(SenderNotFound)
    ensures r == Err(NoRecipients) <==> req.senderId in senders && req.recipients == ArrayOf([])
    ensures r.Ok? ==>
      var c := r.value;
      var recipients := RecipientList(req.recipients);
      && |c.messages| == |recipients| > 0
      && |c.jobs| == |recipients|
      && c.nextId == nextId + |recipients|
      && forall i :: 0 <= i < |recipients| ==>
           && c.messages[i].id == nextId + i
           && c.messages[i].recipient == recipients[i]
           && c.messages[i].senderId == req.senderId
           && c.messages[i].subject == req.subject
           && c.messages[i].body == req.body
           && c.messages[i].status == Pending
           && c.messages[i].jobId == c.messages[i].id
           && c.jobs[i].jobId == c.messages[i].id
           && c.jobs[i].emailId == c.messages[i].id
           && c.jobs[i].senderId == req.senderId
           && c.jobs[i].delay >= 0.0
           && c.jobs[i].delay == EmailDelay(BaseDelay(now, req.sendAt), Interval(req.delay, req.hourlyLimit), i)
           && c.messages[i].sendAt == (now as real + c.jobs[i].delay).Floor
  {
    if req.senderId !in senders then Err(SenderNotFound)
    else
      var recipients := RecipientList(req.recipients);
      if |recipients| == 0 then Err(NoRecipients)
      else
        var base := BaseDelay(now, req.sendAt);
        var interval := Interval(req.delay, req.hourlyLimit);
        var n := |recipients|;
        var jobs := CampaignJobs(nextId, req.senderId, base, interval, n);
        var messages := CampaignMessages(now, nextId, req, recipients, jobs);
        Ok(Campaign(messages, jobs, nextId + n))
  }

  /** The delays of a campaign's jobs, in recipient order. */
  function Delays(c: Campaign): seq<real>
  {
    seq(|c.jobs|, i requires 0 <= i < |c.jobs| => c.jobs[i].delay)
  }

  /** Staggered delays grow with the index: weakly in general, strictly when the interval is positive. */
  lemma EmailDelayMonotone(base: int, interval: real, i: nat, j: nat)
    requires interval >= 0.0
    requires i <= j
    ensures EmailDelay(base, interval, i) <= EmailDelay(base, interval, j)
    ensures i < j && interval > 0.0 ==> EmailDelay(base, interval, i) < EmailDelay(base, interval, j)
  {
    assert j as real * interval - i as real * interval == (j - i) as real * interval;
    assert (j - i) as real * interval >= 0.0;
    if i < j && interval > 0.0 {
      assert (j - i) as real * interval > 0.0;
    }
  }

  /** Later recipients never wait less; with a positive interval they wait strictly longer. */
  lemma DelaysIncrease(now: int, senders: map<string, Sender>, req: Request, nextId: nat, i: nat, j: nat)
    requires now >= 0
    requires Schedule(now, senders, req, nextId).Ok?
    requires i <= j < |Schedule(now, senders, req, nextId).value.jobs|
    ensures var jobs := Schedule(now, senders, req, nextId).value.jobs;
      && jobs[i].delay <= jobs[j].delay
      && (i < j && Interval(req.delay, req.hourlyLimit) > 0.0 ==> jobs[i].delay < jobs[j].delay)
  {
    EmailDelayMonotone(BaseDelay(now, req.sendAt), Interval(req.delay, req.hourlyLimit), i, j);
  }

  /** With only a per-pair delay of D seconds, recipient i waits the base delay plus i*D*1000 ms. */
  lemma DelayOnlyStagger(now: int, senders: map<string, Sender>, req: Request, nextId: nat, i: nat)
    requires now >= 0
    requires !IsSet(req.hourlyLimit) && IsSet(req.delay)
    requires Schedule(now, senders, req, nextId).Ok?
    requires i < |Schedule(now, senders, req, nextId).value.jobs|
    ensures Schedule(now, senders, req, nextId).value.jobs[i].delay
            == BaseDelay(now, req.sendAt) as real + i as real * req.delay.value * 1000.0
  {
  }

  /** Empty form fields arrive as 0, which the server treats exactly like absent fields. */
  lemma ZeroFieldsMeanUnset(now: int, senders: map<string, Sender>, req: Request, nextId: nat)
    requires now >= 0
    ensures Schedule(now, senders, req.(delay := Some(0.0)), nextId)
         == Schedule(now, senders, req.(delay := None), nextId)
    ensures Schedule(now, senders, req.(hourlyLimit := Some(0.0)), nextId)
         == Schedule(now, senders, req.(hourlyLimit := None), nextId)
  {
  }

  /** There is no de-duplication: the same request admitted twice yields disjoint message and job ids. */
  lemma RepeatedRequestsGetDistinctIds(now1: int, now2: int, senders: map<string, Sender>, req: Request, nextId: nat)
    requires now1 >= 0 && now2 >= 0
    requires Schedule(now1, senders, req, nextId).Ok?
    ensures var c1 := Schedule(now1, senders, req, nextId).value;
      var r2 := Schedule(now2, senders, req, c1.nextId);
      && r2.Ok?
      && |r2.value.messages| == |c1.messages|
      && forall a, b :: 0 <= a < |c1.messages| && 0 <= b < |r2.value.messages| ==>
           c1.messages[a].id != r2.value.messages[b].id && c1.jobs[a].jobId != r2.value.jobs[b].jobId
  {
  }

  /** How many of `ds` fall into the half-open hour [t, t + 1h). */
  function CountInHour(ds: seq<real>, t: real): (n: nat)
    ensures n <= |ds|
  {
    if ds == [] then 0
    else (if t <= ds[0] < t + MsPerHour as real then 1 else 0) + CountInHour(ds[1..], t)
  }

  /** Consecutive entries of `ds` are at least `g` apart (so entries k apart are at least k*g apart). */
  ghost predicate SpacedBy(ds: seq<real>, g: real)
  {
    forall i, j :: 0 <= i <= j < |ds| ==> ds[j] - ds[i] >= (j - i) as real * g
  }

  lemma {:induction false} CountInHourAppend(a: seq<real>, b: seq<real>, t: real)
    ensures CountInHour(a + b, t) == CountInHour(a, t) + CountInHour(b, t)
    decreases |a|
  {
    if a == [] {
      assert a + b == b;
    } else {
      assert (a + b)[1..] == a[1..] + b;
      CountInHourAppend(a[1..], b, t);
    }
  }

  lemma {:induction false} CountInHourNone(ds: seq<real>, t: real)
    requires forall k :: 0 <= k < |ds| ==> !(t <= ds[k] < t + MsPerHour as real)
    ensures CountInHour(ds, t) == 0
    decreases |ds|
  {
    if ds != [] {
      CountInHourNone(ds[1..], t);
    }
  }

  /** If entries are spaced by g and L*g covers an hour, no hour holds more than L of them. */
  lemma {:induction false} SpacedHourBound(ds: seq<real>, g: real, limit: nat, t: real)
    requires g >= 0.0
    requires limit as real * g >= MsPerHour as real
    requires SpacedBy(ds, g)
    ensures CountInHour(ds, t) <= limit
    decreases |ds|
  {
    if ds == [] {
    } else if t <= ds[0] < t + MsPerHour as real {
      var m := if limit < |ds| then limit else |ds|;
      forall k | m <= k < |ds| ensures !(t <= ds[k] < t + MsPerHour as real) {
        assert ds[k] - ds[0] >= k as real * g;
        assert k as real * g >= limit as real * g by {
          assert (k - limit) as real * g >= 0.0;
        }
      }
      assert ds == ds[..m] + ds[m..];
      CountInHourAppend(ds[..m], ds[m..], t);
      CountInHourNone(ds[m..], t);
    } else {
      assert SpacedBy(ds[1..], g) by {
        forall i, j | 0 <= i <= j < |ds[1..]| ensures ds[1..][j] - ds[1..][i] >= (j - i) as real * g {
          assert ds[j + 1] - ds[i + 1] >= ((j + 1) - (i + 1)) as real * g;
        }
      }
      SpacedHourBound(ds[1..], g, limit, t);
    }
  }

  lemma StaggerIsSpaced(ds: seq<real>, base: int, interval: real)
    requires forall k :: 0 <= k < |ds| ==> ds[k] == EmailDelay(base, interval, k)
    ensures SpacedBy(ds, interval)
  {
    forall i, j | 0 <= i <= j < |ds| ensures ds[j] - ds[i] >= (j - i) as real * interval {
      assert j as real * interval - i as real * interval == (j - i) as real * interval;
    }
  }

  /**
    With an integral hourly limit L > 0, any one-hour window holds at most L of
    the campaign's scheduled delays, whatever the per-pair delay.
  */
  lemma HourWindowHoldsAtMostLimit(now: int, senders: map<string, Sender>, req: Request, nextId: nat, limit: nat, t: real)
    requires now >= 0
    requires limit > 0 && req.hourlyLimit == Some(limit as real)
    requires req.senderId in senders && req.recipients != ArrayOf([])
    ensures CountInHour(Delays(Schedule(now, senders, req, nextId).value), t) <= limit
  {
    var c := Schedule(now, senders, req, nextId).value;
    var base := BaseDelay(now, req.sendAt);
    var iv := Interval(req.delay, req.hourlyLimit);
    var ds := Delays(c);
    StaggerIsSpaced(ds, base, iv);
    SpacedHourBound(ds, iv, limit, t);
  }

  /** The status store after the campaign's rows are written: every new message is PENDING. */
  function RecordCampaign(store: StatusStore, c: Campaign): (s: StatusStore)
    ensures forall i :: 0 <= i < |c.messages| ==> c.messages[i].id in s && s[c.messages[i].id] == Pending
    ensures forall id :: id in store && (forall i :: 0 <= i < |c.messages| ==> c.messages[i].id != id) ==> id in s && s[id] == store[id]
    ensures s.Keys == store.Keys + set m | m in c.messages :: m.id
  {
    store + map m | m in c.messages :: m.id := Pending
  }
}
