/**
  The dispatch worker: one processing step per claimed job over the status
  store and the rate counters, and runs of steps. The transport's verdict is
  an input of the step; the queue's retry policy is the configured default
  (3 attempts, exponential backoff from 1000 ms).
*/
module EmailWorker {
  import opened Domain
  import opened RateLimit
  import Scheduling
  import opened Seqs

  /** Attempts the queue allows a job before it stays failed. */
  const MaxAttempts: nat := 3

  /** The first retry's backoff; each later retry doubles it. */
  const BackoffBaseMs: nat := 1000

  /** The payload of a queued job. */
  datatype JobData = JobData(emailId: nat, senderId: string)

  /** What the worker reads and writes: message statuses and the rate counters. */
  datatype World = World(statuses: StatusStore, counters: CounterStore)

  /** How one step ended. `key` is the rate counter the step incremented. */
  datatype Outcome =
    | SkippedMissing
    | SkippedSent
    | Rescheduled(key: RateKey, count: nat, redelay: int)
    | Delivered(key: RateKey)
    | TransportFailed(key: RateKey)

  datatype StepResult = StepResult(world: World, outcome: Outcome)

  /** The step handed the message to the transport (whatever the transport then said). */
  predicate ReachedTransport(o: Outcome)
  {
    o.Delivered? || o.TransportFailed?
  }

  /** One run of the processor for `job` at time `now`; `transportOk` is the transport's verdict. */
  function Step(senders: map<string, Sender>, w: World, job: JobData, now: int, transportOk: bool): (r: StepResult)
    ensures r.outcome == SkippedMissing <==> job.senderId !in senders || job.emailId !in w.statuses
    ensures r.outcome == SkippedSent <==>
      job.senderId in senders && job.emailId in w.statuses && w.statuses[job.emailId] == Sent
    ensures r.outcome.SkippedMissing? || r.outcome.SkippedSent? ==> r.world == w
    ensures r.world.statuses.Keys == w.statuses.Keys
  {
    if job.senderId !in senders || job.emailId !in w.statuses then
      StepResult(w, SkippedMissing)
    else if w.statuses[job.emailId] == Sent then
      StepResult(w, SkippedSent)
    else
      var sender := senders[job.senderId];
      var counted := CountAttempt(w.counters, job.senderId, now);
      var key := KeyFor(job.senderId, now);
      if counted.count > sender.hourlyQuota then
        StepResult(World(w.statuses[job.emailId := Throttled], counted.store),
                   Rescheduled(key, counted.count, NextHourDelay(now)))
      else if transportOk then
        StepResult(World(w.statuses[job.emailId := Sent], counted.store), Delivered(key))
      else
        StepResult(World(w.statuses[job.emailId := Failed], counted.store), TransportFailed(key))
  }

  /**
    A step past both guards: it increments the (sender, hour) counter once,
    throttles iff the new count exceeds the quota (status THROTTLED, re-delay
    to the next whole hour, never FAILED), and otherwise writes SENT or FAILED
    according to the transport. Nothing else changes.
  */
  lemma StepPastGuards(senders: map<string, Sender>, w: World, job: JobData, now: int, transportOk: bool)
    requires job.senderId in senders && job.emailId in w.statuses && w.statuses[job.emailId] != Sent
    ensures var r := Step(senders, w, job, now, transportOk);
      var key := KeyFor(job.senderId, now);
      var quota := senders[job.senderId].hourlyQuota;
      var count := CountAt(w.counters, key, now) + 1;
      && !r.outcome.SkippedMissing? && !r.outcome.SkippedSent?
      && r.outcome.key == key
      && key in r.world.counters && r.world.counters[key].count == count
      && (count == 1 ==> r.world.counters[key].expiresAt == Some(now + ExpiryMs))
      && (count > 1 ==> r.world.counters[key].expiresAt == w.counters[key].expiresAt)
      && (forall k :: k in w.counters && k != key ==> k in r.world.counters && r.world.counters[k] == w.counters[k])
      && (forall k :: k in r.world.counters ==> k in w.counters || k == key)
      && (r.outcome.Rescheduled? <==> count > quota)
      && (r.outcome.Rescheduled? ==>
            && r.outcome.count == count
            && 0 < r.outcome.redelay <= MsPerHour
            && (now + r.outcome.redelay) % MsPerHour == 0
            && r.world.statuses == w.statuses[job.emailId := Throttled])
      && (r.outcome.Delivered? <==> count <= quota && transportOk)
      && (r.outcome.Delivered? ==> r.world.statuses == w.statuses[job.emailId := Sent])
      && (r.outcome.TransportFailed? <==> count <= quota && !transportOk)
      && (r.outcome.TransportFailed? ==> r.world.statuses == w.statuses[job.emailId := Failed])
  {
  }

  /** A claimed job, the time of the claim and the transport's verdict for it. */
  datatype Event = Event(job: JobData, now: int, transportOk: bool)

  datatype RunResult = RunResult(world: World, outcomes: seq<Outcome>)

  /** Steps processed one after another; Redis INCR is atomic, so concurrent workers are some such order. */
  function Run(senders: map<string, Sender>, w: World, events: seq<Event>): (r: RunResult)
    ensures |r.outcomes| == |events|
    ensures r.world.statuses.Keys == w.statuses.Keys
    decreases |events|
  {
    if events == [] then RunResult(w, [])
    else
      var first := Step(senders, w, events[0].job, events[0].now, events[0].transportOk);
      var rest := Run(senders, first.world, events[1..]);
      RunResult(rest.world, [first.outcome] + rest.outcomes)
  }

  /** How many outcomes handed a message to the transport under counter `key`. */
  function TransportAttempts(outcomes: seq<Outcome>, key: RateKey): nat
  {
    if outcomes == [] then 0
    else (if ReachedTransport(outcomes[0]) && outcomes[0].key == key then 1 else 0)
         + TransportAttempts(outcomes[1..], key)
  }

  /** The stored count of `key`, expired or not (0 when absent). */
  function Stored(store: CounterStore, key: RateKey): nat
  {
    if key in store then store[key].count else 0
  }

  /** One step keeps the counters well formed, never lowers a count, and sends only within quota. */
  lemma StepCounting(senders: map<string, Sender>, w: World, e: Event, key: RateKey)
    requires WellFormed(w.counters)
    ensures var r := Step(senders, w, e.job, e.now, e.transportOk);
      && WellFormed(r.world.counters)
      && Stored(r.world.counters, key) >= Stored(w.counters, key)
      && (ReachedTransport(r.outcome) && r.outcome.key == key ==>
            && key.senderId in senders
            && Stored(r.world.counters, key) == Stored(w.counters, key) + 1
            && Stored(r.world.counters, key) <= senders[key.senderId].hourlyQuota)
  {
    var r := Step(senders, w, e.job, e.now, e.transportOk);
    if !(r.outcome.SkippedMissing? || r.outcome.SkippedSent?) {
      CountAttemptNeverResets(w.counters, e.job.senderId, e.now);
    }
  }

  /**
    Over any run from well-formed counters, the messages handed to the
    transport under one (sender, hour) counter are all counted by it, and
    together with what the counter held before they stay within the quota.
  */
  lemma {:induction false} RunWithinQuota(senders: map<string, Sender>, w: World, events: seq<Event>, key: RateKey)
    requires WellFormed(w.counters)
    ensures var r := Run(senders, w, events);
      && WellFormed(r.world.counters)
      && Stored(w.counters, key) + TransportAttempts(r.outcomes, key) <= Stored(r.world.counters, key)
      && (TransportAttempts(r.outcomes, key) > 0 ==>
            && key.senderId in senders
            && Stored(w.counters, key) + TransportAttempts(r.outcomes, key) <= senders[key.senderId].hourlyQuota)
    decreases |events|
  {
    if events != [] {
      var first := Step(senders, w, events[0].job, events[0].now, events[0].transportOk);
      StepCounting(senders, w, events[0], key);
      RunWithinQuota(senders, first.world, events[1..], key);
      var r := Run(senders, w, events);
      assert r.outcomes[1..] == Run(senders, first.world, events[1..]).outcomes;
    }
  }

  /** From counters that hold nothing for the key yet, at most `hourlyQuota` messages per sender and hour reach the transport. */
  lemma AtMostQuotaPerHour(senders: map<string, Sender>, w: World, events: seq<Event>, key: RateKey)
    requires WellFormed(w.counters)
    requires key !in w.counters
    ensures var n := TransportAttempts(Run(senders, w, events).outcomes, key);
      n == 0 || (key.senderId in senders && n <= senders[key.senderId].hourlyQuota)
  {
    RunWithinQuota(senders, w, events, key);
  }

  /** A SENT message stays SENT, and every later job for it is skipped before counting or sending. */
  lemma {:induction false} SentIsNeverReprocessed(senders: map<string, Sender>, w: World, events: seq<Event>, id: nat)
    requires id in w.statuses && w.statuses[id] == Sent
    ensures var r := Run(senders, w, events);
      && id in r.world.statuses && r.world.statuses[id] == Sent
      && forall i :: 0 <= i < |events| && events[i].job.emailId == id ==>
           r.outcomes[i] == SkippedSent || r.outcomes[i] == SkippedMissing
    decreases |events|
  {
    if events != [] {
      var first := Step(senders, w, events[0].job, events[0].now, events[0].transportOk);
      SentIsNeverReprocessed(senders, first.world, events[1..], id);
      var r := Run(senders, w, events);
      var rest := Run(senders, first.world, events[1..]);
      forall i | 0 <= i < |events| && events[i].job.emailId == id
        ensures r.outcomes[i] == SkippedSent || r.outcomes[i] == SkippedMissing
      {
        if i > 0 {
          assert r.outcomes[i] == rest.outcomes[i - 1];
          assert events[1..][i - 1] == events[i];
        }
      }
    }
  }

  /** What the queue does with a job after a step, given the attempts it had already used. */
  datatype Disposition =
    | Completed
    | Redelayed(delay: int)
    | Retry(attemptsMade: nat, backoff: nat)
    | Exhausted

  function Pow2(n: nat): (p: nat)
    ensures p >= 1
  {
    if n == 0 then 1 else 2 * Pow2(n - 1)
  }

  /**
    A transport error is rethrown and spends one attempt; a throttle re-delays
    the job to the next hour without spending one; anything else completes it.
  */
  function Settle(attemptsMade: nat, o: Outcome): (d: Disposition)
    ensures o.Rescheduled? <==> d.Redelayed?
    ensures d.Redelayed? ==> d.delay == o.redelay
    ensures d.Retry? ==> o.TransportFailed? && d.attemptsMade == attemptsMade + 1 < MaxAttempts
    ensures d.Retry? ==> d.backoff == BackoffBaseMs * Pow2(attemptsMade)
    ensures d == Exhausted <==> o.TransportFailed? && attemptsMade + 1 >= MaxAttempts
    ensures d == Completed <==> o.SkippedMissing? || o.SkippedSent? || o.Delivered?
  {
    match o
    case Rescheduled(_, _, redelay) => Redelayed(redelay)
    case TransportFailed(_) =>
      if attemptsMade + 1 < MaxAttempts then Retry(attemptsMade + 1, BackoffBaseMs * Pow2(attemptsMade))
      else Exhausted
    case _ => Completed
  }

  /**
    Right after admission every job of the campaign finds its message PENDING,
    so its first step is neither skipped as missing nor as already sent.
  */
  lemma AdmittedJobsPassGuards(
    admittedAt: int, senders: map<string, Sender>, req: Scheduling.Request, nextId: nat,
    w: World, i: nat, now: int, transportOk: bool)
    requires admittedAt >= 0
    requires Scheduling.Schedule(admittedAt, senders, req, nextId).Ok?
    requires i < |Scheduling.Schedule(admittedAt, senders, req, nextId).value.jobs|
    ensures var c := Scheduling.Schedule(admittedAt, senders, req, nextId).value;
      var admitted := World(Scheduling.RecordCampaign(w.statuses, c), w.counters);
      var job := JobData(c.jobs[i].emailId, c.jobs[i].senderId);
      var r := Step(senders, admitted, job, now, transportOk);
      !r.outcome.SkippedMissing? && !r.outcome.SkippedSent?
  {
  }

  /** Claims of the messages `ids` of one sender, all at time `now`, all accepted by the transport. */
  function Claims(ids: seq<nat>, senderId: string, now: int): (events: seq<Event>)
    ensures |events| == |ids|
    ensures forall k :: 0 <= k < |ids| ==> events[k] == Event(JobData(ids[k], senderId), now, true)
  {
    seq(|ids|, k requires 0 <= k < |ids| => Event(JobData(ids[k], senderId), now, true))
  }

  /** One claim of an unsent message: delivered within quota, throttled beyond it; the hour's count grows by one. */
  lemma ClaimStep(senders: map<string, Sender>, w: World, id: nat, senderId: string, now: int, n: nat)
    requires senderId in senders
    requires id in w.statuses && w.statuses[id] != Sent
    requires CountAt(w.counters, KeyFor(senderId, now), now) == n
    ensures var r := Step(senders, w, JobData(id, senderId), now, true);
      var quota := senders[senderId].hourlyQuota;
      && r.world.statuses == w.statuses[id := if n < quota then Sent else Throttled]
      && r.world.statuses.Keys == w.statuses.Keys
      && CountAt(r.world.counters, KeyFor(senderId, now), now) == n + 1
      && (r.outcome.Delivered? <==> n < quota)
      && (r.outcome.Rescheduled? <==> n >= quota)
  {
    StepPastGuards(senders, w, JobData(id, senderId), now, true);
  }

  /** A run's first outcome is its first step's; the rest is the run from the world that step left. */
  lemma RunFirst(senders: map<string, Sender>, w: World, events: seq<Event>)
    requires events != []
    ensures var first := Step(senders, w, events[0].job, events[0].now, events[0].transportOk);
      var rest := Run(senders, first.world, events[1..]);
      && Run(senders, w, events).outcomes == [first.outcome] + rest.outcomes
      && Run(senders, w, events).world == rest.world
  {
  }

  /**
    Claims of distinct unsent messages of one sender within one hour, when the
    hour's counter already holds n: the claim at position k goes out iff
    n + k < hourlyQuota, and every other one is throttled.
  */
  lemma {:induction false} ClaimsWithinOneHour(
    senders: map<string, Sender>, w: World, ids: seq<nat>, senderId: string, now: int, n: nat)
    requires senderId in senders
    requires NoDuplicates(ids)
    requires forall k :: 0 <= k < |ids| ==> ids[k] in w.statuses && w.statuses[ids[k]] != Sent
    requires CountAt(w.counters, KeyFor(senderId, now), now) == n
    ensures var r := Run(senders, w, Claims(ids, senderId, now));
      forall k :: 0 <= k < |ids| ==>
        && (r.outcomes[k].Delivered? <==> n + k < senders[senderId].hourlyQuota)
        && (r.outcomes[k].Rescheduled? <==> n + k >= senders[senderId].hourlyQuota)
    decreases |ids|
  {
    if ids != [] {
      var first := Step(senders, w, JobData(ids[0], senderId), now, true);
      ClaimStep(senders, w, ids[0], senderId, now, n);
      ClaimsRest(w, ids, first.world);
      ClaimsWithinOneHour(senders, first.world, ids[1..], senderId, now, n + 1);
      RunFirst(senders, w, Claims(ids, senderId, now));
      assert Claims(ids, senderId, now)[1..] == Claims(ids[1..], senderId, now);
    }
  }

  /** The same claims leave each claimed message SENT or THROTTLED by the same rule, and every other message as it was. */
  lemma {:induction false} ClaimsWithinOneHourStatuses(
    senders: map<string, Sender>, w: World, ids: seq<nat>, senderId: string, now: int, n: nat)
    requires senderId in senders
    requires NoDuplicates(ids)
    requires forall k :: 0 <= k < |ids| ==> ids[k] in w.statuses && w.statuses[ids[k]] != Sent
    requires CountAt(w.counters, KeyFor(senderId, now), now) == n
    ensures var r := Run(senders, w, Claims(ids, senderId, now));
      && (forall k :: 0 <= k < |ids| ==>
            r.world.statuses[ids[k]] == if n + k < senders[senderId].hourlyQuota then Sent else Throttled)
      && (forall id :: id in w.statuses && id !in ids ==> r.world.statuses[id] == w.statuses[id])
    decreases |ids|
  {
    if ids != [] {
      var first := Step(senders, w, JobData(ids[0], senderId), now, true);
      ClaimStep(senders, w, ids[0], senderId, now, n);
      ClaimsRest(w, ids, first.world);
      ClaimsWithinOneHourStatuses(senders, first.world, ids[1..], senderId, now, n + 1);
      RunFirst(senders, w, Claims(ids, senderId, now));
      assert Claims(ids, senderId, now)[1..] == Claims(ids[1..], senderId, now);
    }
  }

  /** After the first claim, the remaining ids are still distinct, unsent, and exclude the first. */
  lemma ClaimsRest(w: World, ids: seq<nat>, w1: World)
    requires ids != [] && NoDuplicates(ids)
    requires forall k :: 0 <= k < |ids| ==> ids[k] in w.statuses && w.statuses[ids[k]] != Sent
    requires w1.statuses.Keys == w.statuses.Keys
    requires forall id :: id in w.statuses && id != ids[0] ==> w1.statuses[id] == w.statuses[id]
    ensures NoDuplicates(ids[1..]) && ids[0] !in ids[1..]
    ensures forall k :: 0 <= k < |ids[1..]| ==> ids[1..][k] in w1.statuses && w1.statuses[ids[1..][k]] != Sent
  {
    forall k | 0 <= k < |ids[1..]| ensures ids[1..][k] == ids[k + 1] != ids[0] {
    }
  }

  /** The sender of the burst scenario: quota 2. */
  function BurstSenders(): map<string, Sender>
  {
    map["s" := Sender("s", "Throttled Sender", "throttled@example.com", 2)]
  }

  /** The status store holds exactly the messages 0 to 4, with the given statuses. */
  predicate BurstStatuses(st: StatusStore, s0: Status, s1: Status, s2: Status, s3: Status, s4: Status)
  {
    && st.Keys == {0, 1, 2, 3, 4}
    && st[0] == s0 && st[1] == s1 && st[2] == s2 && st[3] == s3 && st[4] == s4
  }

  /** Five PENDING messages, numbered 0 to 4, and no counters yet. */
  function BurstStart(): World
  {
    World(map[0 := Pending, 1 := Pending, 2 := Pending, 3 := Pending, 4 := Pending], map[])
  }

  /**
    The burst, first hour: of five PENDING messages claimed within the hour of
    `now` with no counter yet, two are delivered and three throttled.
  */
  lemma BurstFirstHour(w: World, ids: seq<nat>, now: int)
    requires w == BurstStart() && ids == [0, 1, 2, 3, 4]
    ensures var r := Run(BurstSenders(), w, Claims(ids, "s", now));
      && r.outcomes[0].Delivered? && r.outcomes[1].Delivered?
      && r.outcomes[2].Rescheduled? && r.outcomes[3].Rescheduled? && r.outcomes[4].Rescheduled?
      && BurstStatuses(r.world.statuses, Sent, Sent, Throttled, Throttled, Throttled)
  {
    assert ids[0] == 0 && ids[1] == 1 && ids[2] == 2 && ids[3] == 3 && ids[4] == 4;
    ClaimsWithinOneHour(BurstSenders(), w, ids, "s", now, 0);
    ClaimsWithinOneHourStatuses(BurstSenders(), w, ids, "s", now, 0);
  }

  /**
    The burst, next hour: the counter of the new hour starts afresh, so two of
    the three throttled messages go out and the third is throttled again.
  */
  lemma BurstSecondHour(w: World, ids: seq<nat>, now: int)
    requires BurstStatuses(w.statuses, Sent, Sent, Throttled, Throttled, Throttled)
    requires KeyFor("s", now) !in w.counters
    requires ids == [2, 3, 4]
    ensures var r := Run(BurstSenders(), w, Claims(ids, "s", now));
      && r.outcomes[0].Delivered? && r.outcomes[1].Delivered? && r.outcomes[2].Rescheduled?
      && BurstStatuses(r.world.statuses, Sent, Sent, Sent, Sent, Throttled)
  {
    ClaimsWithinOneHour(BurstSenders(), w, ids, "s", now, 0);
    ClaimsWithinOneHourStatuses(BurstSenders(), w, ids, "s", now, 0);
    assert 0 !in ids && 1 !in ids;
  }

  /** The burst, third hour: the last throttled message goes out. */
  lemma BurstThirdHour(w: World, ids: seq<nat>, now: int)
    requires BurstStatuses(w.statuses, Sent, Sent, Sent, Sent, Throttled)
    requires KeyFor("s", now) !in w.counters
    requires ids == [4]
    ensures var r := Run(BurstSenders(), w, Claims(ids, "s", now));
      && r.outcomes[0].Delivered?
      && BurstStatuses(r.world.statuses, Sent, Sent, Sent, Sent, Sent)
  {
    ClaimsWithinOneHour(BurstSenders(), w, ids, "s", now, 0);
    ClaimsWithinOneHourStatuses(BurstSenders(), w, ids, "s", now, 0);
    assert 0 !in ids && 1 !in ids && 2 !in ids && 3 !in ids;
  }

  /**
    The burst scenario end to end: quota 2 and five messages claimed in one
    hour give 2 delivered and 3 throttled; the following hour delivers two of
    those, and the last one goes out in the hour after.
  */
  lemma BurstWithQuotaTwo(w: World, now: int)
    requires w == BurstStart()
    ensures var first := Run(BurstSenders(), w, Claims([0, 1, 2, 3, 4], "s", now));
      var hour2 := now + NextHourDelay(now);
      var second := Run(BurstSenders(), first.world, Claims([2, 3, 4], "s", hour2));
      var hour3 := hour2 + NextHourDelay(hour2);
      var third := Run(BurstSenders(), second.world, Claims([4], "s", hour3));
      && BurstStatuses(first.world.statuses, Sent, Sent, Throttled, Throttled, Throttled)
      && BurstStatuses(second.world.statuses, Sent, Sent, Sent, Sent, Throttled)
      && BurstStatuses(third.world.statuses, Sent, Sent, Sent, Sent, Sent)
  {
    var ids1: seq<nat>, ids2: seq<nat>, ids3: seq<nat> := [0, 1, 2, 3, 4], [2, 3, 4], [4];
    var first := Run(BurstSenders(), w, Claims(ids1, "s", now));
    var hour2 := now + NextHourDelay(now);
    var hour3 := hour2 + NextHourDelay(hour2);
    BurstFirstHour(w, ids1, now);
    RunTouchesClaimedCounters(BurstSenders(), w, Claims(ids1, "s", now), KeyFor("s", hour2));
    RunTouchesClaimedCounters(BurstSenders(), w, Claims(ids1, "s", now), KeyFor("s", hour3));
    BurstSecondHour(first.world, ids2, hour2);
    var second := Run(BurstSenders(), first.world, Claims(ids2, "s", hour2));
    RunTouchesClaimedCounters(BurstSenders(), first.world, Claims(ids2, "s", hour2), KeyFor("s", hour3));
    BurstThirdHour(second.world, ids3, hour3);
  }

  /** A run only creates counters for the (sender, hour) pairs of its claims. */
  lemma {:induction false} RunTouchesClaimedCounters(senders: map<string, Sender>, w: World, events: seq<Event>, key: RateKey)
    requires key !in w.counters
    requires forall k :: 0 <= k < |events| ==> KeyFor(events[k].job.senderId, events[k].now) != key
    ensures key !in Run(senders, w, events).world.counters
    decreases |events|
  {
    if events != [] {
      var first := Step(senders, w, events[0].job, events[0].now, events[0].transportOk);
      RunTouchesClaimedCounters(senders, first.world, events[1..], key);
    }
  }

}
