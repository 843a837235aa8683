/**
 The in-process event bus: `emit` commits to the events table and then fans out to bounded
 subscriber queues; `subscribe` registers first, replays the table second, and only then reads
 its queue.
 */
module EventBus {
  import opened Wrappers
  import opened Seqs

  /** `call` tells one emit from another: after a failed commit the next event gets the same id. */
  datatype Event = Event(id: int, ts: int, body: string, call: nat)

  const QUEUE_SIZE := 512

  /** `put_nowait`, with a full queue suppressed. */
  function Offered(items: seq<Event>, e: Event): seq<Event> {
    if |items| < QUEUE_SIZE then items + [e] else items
  }

  /** Ids come from AUTOINCREMENT. */
  ghost predicate IdsIncrease(table: seq<Event>) {
    forall i, j :: 0 <= i < j < |table| ==> table[i].id < table[j].id
  }

  function Beyond(since: int, floor: int): Event -> bool {
    (e: Event) => e.id > since && e.id >= floor
  }

  // ---------- Emitters and one subscriber, interleaved ----------

  /** How far an `emit` has got after its commit. */
  datatype Emit = Committed | Snapshotted(seesUs: bool)

  /** `arrived` lists what was put on the subscriber's queue, of which the first `taken` were
      yielded; `replay` is the result of its replay query, of which the first `pos` were yielded.
      The table holds the committed events from `floor` up; `lost` events were fanned out although
      their commit failed. `passedBy` and `dropped` remember the events whose fan-out did not include
      us, or found our queue full. */
  datatype Bus = Bus(
    committed: seq<Event>, lost: set<Event>, floor: int, emits: map<Event, Emit>,
    registered: bool, replay: Option<seq<Event>>, floorAtReplay: int, pos: nat,
    arrived: seq<Event>, taken: nat, passedBy: set<Event>, dropped: set<Event>)

  datatype Step =
    | Commit(e: Event)
    | CommitFails(e: Event)
    | Snapshot(e: Event)
    | Put(e: Event)
    | Vacuum(floor: int)
    | Register
    | Query
    | Yield

  predicate Enabled(s: Bus, step: Step) {
    match step
    case Commit(e) => e !in s.lost && (s.committed == [] || s.committed[|s.committed| - 1].id < e.id)
    case CommitFails(e) => e !in s.lost && (s.committed == [] || s.committed[|s.committed| - 1].id < e.id)
    case Snapshot(e) => e in s.emits && s.emits[e].Committed?
    case Put(e) => e in s.emits && s.emits[e].Snapshotted?
    case Vacuum(_) => true
    case Register => !s.registered
    case Query => s.registered && s.replay.None?
    case Yield => s.replay.Some? && (s.pos < |s.replay.value| || s.taken < |s.arrived|)
  }

  /** Without a resume point nothing is replayed. */
  function Replayed(s: Bus, since: Option<int>): seq<Event> {
    if since.None? then [] else Filter(s.committed, Beyond(since.value, s.floor))
  }

  function Next(s: Bus, step: Step, since: Option<int>): Bus
    requires Enabled(s, step)
  {
    match step
    case Commit(e) => s.(committed := s.committed + [e], emits := s.emits[e := Committed])
    case CommitFails(e) => s.(lost := s.lost + {e}, emits := s.emits[e := Committed])
    case Snapshot(e) => s.(emits := s.emits[e := Snapshotted(s.registered)])
    case Put(e) =>
      var rest := s.emits - {e};
      if !s.emits[e].seesUs then s.(emits := rest, passedBy := s.passedBy + {e})
      else if |s.arrived| - s.taken < QUEUE_SIZE then s.(emits := rest, arrived := s.arrived + [e])
      else s.(emits := rest, dropped := s.dropped + {e})
    case Vacuum(floor) => s.(floor := if floor > s.floor then floor else s.floor)
    case Register => s.(registered := true)
    case Query => s.(replay := Some(Replayed(s, since)), floorAtReplay := s.floor)
    case Yield => if s.pos < |s.replay.value| then s.(pos := s.pos + 1) else s.(taken := s.taken + 1)
  }

  /** What the subscriber has been handed, in order. */
  function Yielded(s: Bus): seq<Event>
    requires s.replay.Some? ==> s.pos <= |s.replay.value|
    requires s.taken <= |s.arrived|
  {
    (if s.replay.Some? then s.replay.value[..s.pos] else []) + s.arrived[..s.taken]
  }

  ghost predicate Bounds(s: Bus) {
    && s.taken <= |s.arrived| && |s.arrived| - s.taken <= QUEUE_SIZE
    && (if s.replay.Some? then s.registered && s.pos <= |s.replay.value| && (s.taken > 0 ==> s.pos == |s.replay.value|)
        else s.pos == 0 && s.taken == 0)
  }

  ghost predicate Distinct(s: seq<Event>) {
    forall i, j :: 0 <= i < j < |s| ==> s[i] != s[j]
  }

  ghost predicate Emitted(s: Bus, e: Event) {
    e in s.committed || e in s.lost
  }

  /** Every event emitted has met exactly one fate so far. */
  ghost predicate Fates(s: Bus) {
    && IdsIncrease(s.committed) && Distinct(s.arrived) && (forall e :: e in s.committed ==> e !in s.lost)
    && (forall e :: e in s.emits ==> Emitted(s, e) && e !in s.arrived && e !in s.dropped && e !in s.passedBy)
    && (forall e :: e in s.arrived ==> Emitted(s, e) && e !in s.dropped && e !in s.passedBy)
    && (forall e :: e in s.dropped ==> Emitted(s, e) && e !in s.passedBy)
    && (forall e :: e in s.passedBy ==> Emitted(s, e))
    && (forall e :: Emitted(s, e) ==> e in s.emits || e in s.arrived || e in s.dropped || e in s.passedBy)
    && (!s.registered ==> s.arrived == [] && s.dropped == {})
    && (!s.registered ==> forall e :: e in s.emits && s.emits[e].Snapshotted? ==> !s.emits[e].seesUs)
  }

  /** The fan-out of `e` has gone, or will go, past this subscriber. */
  ghost predicate Missed(s: Bus, e: Event) {
    e in s.passedBy || (e in s.emits && s.emits[e] == Snapshotted(false))
  }

  /** What the fan-out went past, the replay query saw. */
  ghost predicate ReplayCovers(s: Bus, since: Option<int>) {
    s.replay.Some? ==>
      && (since.None? ==> s.replay.value == [])
      && (since.Some? ==>
          && IdsIncrease(s.replay.value)
          && (forall e :: e in s.replay.value ==> e in s.committed && e.id > since.value && e.id >= s.floorAtReplay)
          && forall e :: e in s.committed && Missed(s, e) && e.id > since.value && e.id >= s.floorAtReplay ==>
               e in s.replay.value)
  }

  ghost predicate Inv(s: Bus, since: Option<int>) {
    Bounds(s) && Fates(s) && ReplayCovers(s, since)
  }

  lemma {:induction false} FilterIncreases(table: seq<Event>, p: Event -> bool)
    requires IdsIncrease(table)
    ensures IdsIncrease(Filter(table, p))
    decreases |table|
  {
    if table != [] {
      FilterIncreases(table[1..], p);
      assert forall e :: e in table[1..] ==> table[0].id < e.id;
    }
  }

  lemma NewIsUnheardOf(s: Bus, e: Event)
    requires Fates(s) && Enabled(s, Commit(e))
    ensures e !in s.committed && e !in s.lost && e !in s.emits && e !in s.arrived && e !in s.dropped && e !in s.passedBy
  {
  }

  lemma StepKeepsFates(s: Bus, step: Step, since: Option<int>)
    requires Fates(s) && Enabled(s, step)
    ensures Fates(Next(s, step, since))
  {
    hide Replayed, IdsIncrease, Distinct;
    match step {
      case Commit(e) => NewKeepsFates(s, e, since);
      case CommitFails(e) => NewKeepsFates(s, e, since);
      case Put(e) => PutKeepsFates(s, e, since);
      case _ =>
    }
  }

  lemma NewKeepsFates(s: Bus, e: Event, since: Option<int>)
    requires Fates(s) && Enabled(s, Commit(e))
    ensures Fates(Next(s, Commit(e), since)) && Fates(Next(s, CommitFails(e), since))
  {
    NewIsUnheardOf(s, e);
    IncreasesSnoc(s.committed, e);
    hide IdsIncrease, Distinct;
  }

  lemma IncreasesSnoc(table: seq<Event>, e: Event)
    requires IdsIncrease(table) && (table == [] || table[|table| - 1].id < e.id)
    ensures IdsIncrease(table + [e])
  {
  }

  lemma PutKeepsFates(s: Bus, e: Event, since: Option<int>)
    requires Fates(s) && Enabled(s, Put(e))
    ensures Fates(Next(s, Put(e), since))
  {
    hide IdsIncrease;
  }

  /** Nothing but the query itself changes what the replay has to cover. */
  lemma StepKeepsCover(s: Bus, step: Step, since: Option<int>)
    requires Inv(s, since) && Enabled(s, step)
    ensures ReplayCovers(Next(s, step, since), since)
  {
    if step.Query? {
      QueryCovers(s, since);
    } else {
      MissesSettled(s, step, since);
      hide Fates, Enabled, Next, Missed;
    }
  }

  /** Once the query has run, only events it saw are ever missed by the fan-out. */
  lemma MissesSettled(s: Bus, step: Step, since: Option<int>)
    requires Inv(s, since) && Enabled(s, step) && !step.Query?
    ensures var s' := Next(s, step, since);
            && s'.replay == s.replay && s'.floorAtReplay == s.floorAtReplay
            && (forall e :: e in s.committed ==> e in s'.committed)
            && (s.replay.Some? ==> forall e :: e in s'.committed && Missed(s', e) ==> e in s.committed && Missed(s, e))
  {
    if step.Commit? || step.CommitFails? {
      NewIsUnheardOf(s, step.e);
    }
    hide IdsIncrease, Distinct, ReplayCovers;
  }

  lemma QueryCovers(s: Bus, since: Option<int>)
    requires Fates(s) && Enabled(s, Query)
    ensures ReplayCovers(Next(s, Query, since), since)
  {
    if since.Some? {
      FilterIncreases(s.committed, Beyond(since.value, s.floor));
    }
    hide IdsIncrease, Filter, Distinct;
  }

  lemma StepKeepsInv(s: Bus, step: Step, since: Option<int>)
    requires Inv(s, since) && Enabled(s, step)
    ensures Inv(Next(s, step, since), since)
  {
    StepKeepsFates(s, step, since);
    StepKeepsCover(s, step, since);
    hide Fates, ReplayCovers, Replayed;
  }

  ghost predicate Legal(s: Bus, steps: seq<Step>, since: Option<int>)
    decreases |steps|
  {
    steps == [] || (Enabled(s, steps[0]) && Legal(Next(s, steps[0], since), steps[1..], since))
  }

  ghost function After(s: Bus, steps: seq<Step>, since: Option<int>): Bus
    requires Legal(s, steps, since)
    decreases |steps|
  {
    if steps == [] then s else After(Next(s, steps[0], since), steps[1..], since)
  }

  /** A bus whose earlier events were all emitted before this subscriber came. */
  function Start(history: seq<Event>, floor: int): Bus {
    Bus(history, {}, floor, map[], false, None, floor, 0, [], 0, set e | e in history, {})
  }

  ghost predicate Swept(steps: seq<Step>, e: Event) {
    exists k :: 0 <= k < |steps| && steps[k].Vacuum? && e.id < steps[k].floor
  }

  lemma SweptCons(steps: seq<Step>, e: Event)
    requires steps != []
    ensures Swept(steps, e) <==> (steps[0].Vacuum? && e.id < steps[0].floor) || Swept(steps[1..], e)
  {
    if Swept(steps[1..], e) {
      var k :| 0 <= k < |steps[1..]| && steps[1..][k].Vacuum? && e.id < steps[1..][k].floor;
      assert steps[k + 1] == steps[1..][k];
    }
    if Swept(steps, e) {
      var k :| 0 <= k < |steps| && steps[k].Vacuum? && e.id < steps[k].floor;
      assert k > 0 ==> steps[1..][k - 1] == steps[k];
    }
  }

  /** Over any run, an event has left the table exactly when some vacuum took it; it never comes back. */
  lemma {:induction false} SweptForever(s: Bus, steps: seq<Step>, since: Option<int>, e: Event)
    requires Legal(s, steps, since)
    ensures e.id < After(s, steps, since).floor <==> e.id < s.floor || Swept(steps, e)
    decreases |steps|
  {
    if steps != [] {
      SweptCons(steps, e);
      SweptForever(Next(s, steps[0], since), steps[1..], since, e);
    }
  }

  lemma {:induction false} RunKeepsInv(s: Bus, steps: seq<Step>, since: Option<int>)
    requires Inv(s, since) && Legal(s, steps, since)
    ensures Inv(After(s, steps, since), since)
    decreases |steps|
  {
    hide Inv, Next;
    if steps != [] {
      StepKeepsInv(s, steps[0], since);
      RunKeepsInv(Next(s, steps[0], since), steps[1..], since);
    }
  }

  /** In every interleaving: once the replay query has run, a committed event past the resume point
      that the query's table still held has been yielded, or is waiting in the replay or the queue,
      or its fan-out to us is still to come, or our queue was full when it came. */
  lemma AtLeastOnce(history: seq<Event>, floor: int, steps: seq<Step>, since: int, e: Event)
    requires IdsIncrease(history) && Legal(Start(history, floor), steps, Some(since))
    ensures var s := After(Start(history, floor), steps, Some(since));
            && Bounds(s)
            && (s.replay.Some? && e in s.committed && e.id > since && e.id >= s.floorAtReplay ==>
                  || e in Yielded(s)
                  || e in s.replay.value[s.pos..] || e in s.arrived[s.taken..]
                  || (e in s.emits && s.emits[e] != Snapshotted(false))
                  || e in s.dropped)
  {
    RunKeepsInv(Start(history, floor), steps, Some(since));
    hide After, Legal;
    var s := After(Start(history, floor), steps, Some(since));
    if s.replay.Some? {
      assert s.replay.value == s.replay.value[..s.pos] + s.replay.value[s.pos..];
    }
    assert s.arrived == s.arrived[..s.taken] + s.arrived[s.taken..];
  }

  ghost predicate Drained(s: Bus) {
    s.replay.Some? && s.pos == |s.replay.value| && s.taken == |s.arrived| && s.emits == map[]
  }

  /** One copy from the replay, one from the queue, never more. */
  lemma Copies(s: Bus, since: Option<int>, e: Event)
    requires Inv(s, since)
    ensures multiset(Yielded(s))[e] == (if s.replay.Some? && e in s.replay.value[..s.pos] then 1 else 0)
                                     + (if e in s.arrived[..s.taken] then 1 else 0)
  {
    var first := if s.replay.Some? then s.replay.value[..s.pos] else [];
    DistinctCount(first, e);
    DistinctCount(s.arrived[..s.taken], e);
  }

  ghost predicate Delivery(s: Bus, since: Option<int>, e: Event)
    requires Bounds(s)
  {
    && multiset(Yielded(s))[e] <= 2
    && (since.None? || e.id <= since.value || e.id < s.floorAtReplay ==> multiset(Yielded(s))[e] <= 1)
    && (e !in s.committed ==> multiset(Yielded(s))[e] <= if e in s.lost then 1 else 0)
    && (Drained(s) && s.dropped == {} && since.Some? && e in s.committed
        && e.id > since.value && e.id >= s.floorAtReplay ==>
          multiset(Yielded(s))[e] >= 1)
  }

  lemma DrainedYields(s: Bus, since: int, e: Event)
    requires Inv(s, Some(since)) && Drained(s) && s.dropped == {}
    requires e in s.committed && e.id > since && e.id >= s.floorAtReplay
    ensures e in s.replay.value[..s.pos] || e in s.arrived[..s.taken]
  {
    assert s.arrived[..s.taken] == s.arrived && s.replay.value[..s.pos] == s.replay.value;
    hide IdsIncrease, Distinct;
  }

  lemma YieldedFrom(s: Bus, since: Option<int>, e: Event)
    requires Inv(s, since)
    ensures s.replay.Some? && e in s.replay.value[..s.pos] ==>
              e in s.committed && since.Some? && e.id > since.value && e.id >= s.floorAtReplay
    ensures e in s.arrived[..s.taken] ==> Emitted(s, e)
    ensures e in s.committed ==> e !in s.lost
  {
    if s.replay.Some? && e in s.replay.value[..s.pos] {
      assert e in s.replay.value;
    }
    hide IdsIncrease, Distinct;
  }

  lemma InvDelivers(s: Bus, since: Option<int>, e: Event)
    requires Inv(s, since)
    ensures Delivery(s, since, e)
  {
    Copies(s, since, e);
    YieldedFrom(s, since, e);
    if Drained(s) && s.dropped == {} && since.Some? && e in s.committed && e.id > since.value
      && e.id >= s.floorAtReplay {
      DrainedYields(s, since.value, e);
    }
    hide Yielded, Fates, ReplayCovers;
  }

  /** When everything has drained and the queue never overflowed, every event past the resume
      point was yielded once or twice; nothing at or before it, and nothing whose commit failed, comes
      more than once, and nothing that was never emitted comes at all. */
  lemma OnceOrTwice(history: seq<Event>, floor: int, steps: seq<Step>, since: Option<int>, e: Event)
    requires IdsIncrease(history) && Legal(Start(history, floor), steps, since)
    ensures Bounds(After(Start(history, floor), steps, since))
    ensures Delivery(After(Start(history, floor), steps, since), since, e)
  {
    RunKeepsInv(Start(history, floor), steps, since);
    hide After, Legal, Delivery, Start;
    InvDelivers(After(Start(history, floor), steps, since), since, e);
  }

  // ---------- Hanging up and coming back ----------

  /** Not handed over yet: waiting in the replay or the queue, still being fanned out, or dropped. */
  ghost predicate Unserved(s: Bus, e: Event)
    requires Bounds(s)
  {
    || (s.replay.Some? && e in s.replay.value[s.pos..])
    || e in s.arrived[s.taken..] || e in s.dropped || e in s.emits
  }

  lemma YieldedOrUnserved(s: Bus, since: int, e: Event)
    requires Inv(s, Some(since)) && s.replay.Some?
    requires e in s.committed && e.id > since && e.id >= s.floorAtReplay
    ensures e in Yielded(s) || Unserved(s, e)
  {
    assert s.replay.value == s.replay.value[..s.pos] + s.replay.value[s.pos..];
    assert s.arrived == s.arrived[..s.taken] + s.arrived[s.taken..];
    hide IdsIncrease, Distinct;
  }

  /** Hanging up at any moment after the replay query and resuming at `c`: of what the table held at the
      replay, and since, the new subscription makes up for everything the old one was not given exactly
      when whatever was still waiting, still being fanned out or turned away by the full queue has an
      id past `c` and has not been vacuumed. */
  lemma ResumeCatchesUpIff(s: Bus, since: int, c: int)
    requires Inv(s, Some(since)) && s.replay.Some?
    ensures (forall e :: e in s.committed && e.id > since && e.id >= s.floorAtReplay ==>
              e in Yielded(s) || e in Replayed(s, Some(c)))
       <==> (forall e :: (e in s.committed && e.id > since && e.id >= s.floorAtReplay
                          && Unserved(s, e) && e !in Yielded(s)) ==>
               e.id > c && e.id >= s.floor)
  {
    forall e | e in s.committed && e.id > since && e.id >= s.floorAtReplay && e !in Yielded(s) ensures Unserved(s, e) {
      YieldedOrUnserved(s, since, e);
    }
    assert forall e :: e in Replayed(s, Some(c)) <==> e in s.committed && e.id > c && e.id >= s.floor;
    hide Inv, Unserved, Yielded, Replayed;
  }

  // ---------- A slow subscriber ----------

  function EmitSteps(e: Event): seq<Step> {
    [Commit(e), Snapshot(e), Put(e)]
  }

  /** One emit after the other, each running to its end. */
  function EmitAll(es: seq<Event>): seq<Step> {
    if es == [] then [] else EmitSteps(es[0]) + EmitAll(es[1..])
  }

  function Yields(n: nat): seq<Step> {
    if n == 0 then [] else [Yield] + Yields(n - 1)
  }

  /** `steps` lead from `s` to `t`. */
  ghost predicate Leads(s: Bus, steps: seq<Step>, since: Option<int>, t: Bus) {
    Legal(s, steps, since) && After(s, steps, since) == t
  }

  lemma {:induction false} LeadsOn(s: Bus, a: seq<Step>, t: Bus, b: seq<Step>, u: Bus, since: Option<int>)
    requires Leads(s, a, since, t) && Leads(t, b, since, u)
    ensures Leads(s, a + b, since, u)
    decreases |a|
  {
    if a == [] {
      assert a + b == b;
    } else {
      assert (a + b)[1..] == a[1..] + b;
      LeadsOn(Next(s, a[0], since), a[1..], t, b, u, since);
    }
  }

  /** An emit that nobody disturbs ends on the queue, or in the void when the queue is full. */
  function AfterEmit(s: Bus, e: Event): Bus {
    if |s.arrived| - s.taken < QUEUE_SIZE then s.(committed := s.committed + [e], arrived := s.arrived + [e])
    else s.(committed := s.committed + [e], dropped := s.dropped + {e})
  }

  /** Listening, with nothing to replay and no emit under way. */
  predicate Listening(s: Bus) {
    s.registered && s.replay == Some([]) && s.pos == 0 && s.emits == map[] && s.taken <= |s.arrived|
  }

  lemma EmitLeads(s: Bus, e: Event, since: Option<int>)
    requires Listening(s) && Enabled(s, Commit(e))
    ensures Leads(s, EmitSteps(e), since, AfterEmit(s, e)) && Listening(AfterEmit(s, e))
  {
    var s1 := Next(s, Commit(e), since);
    var s2 := Next(s1, Snapshot(e), since);
    assert s2.emits - {e} == map[];
    assert Next(s2, Put(e), since) == AfterEmit(s, e);
    assert Legal(AfterEmit(s, e), [], since);
    ThreeSteps(s, Commit(e), Snapshot(e), Put(e), [], since);
    assert [Commit(e)] + ([Snapshot(e)] + ([Put(e)] + [])) == EmitSteps(e);
  }

  lemma {:induction false} EmitAllLeads(s: Bus, es: seq<Event>, since: Option<int>)
    requires Listening(s) && IdsIncrease(s.committed + es) && (forall e :: e in es ==> e !in s.lost)
    requires |s.arrived| - s.taken + |es| <= QUEUE_SIZE
    ensures Leads(s, EmitAll(es), since, s.(committed := s.committed + es, arrived := s.arrived + es))
    decreases |es|
  {
    if es == [] {
      assert s.committed + [] == s.committed && s.arrived + [] == s.arrived;
    } else {
      var e, rest := es[0], es[1..];
      FirstOfMore(s.committed, es);
      var t := AfterEmit(s, e);
      EmitLeads(s, e, since);
      assert t.committed + rest == s.committed + es && t.arrived + rest == s.arrived + es;
      hide Legal, Leads, AfterEmit, Listening, IdsIncrease;
      EmitAllLeads(t, rest, since);
      var u := t.(committed := t.committed + rest, arrived := t.arrived + rest);
      LeadsOn(s, EmitSteps(e), t, EmitAll(rest), u, since);
    }
  }

  lemma FirstOfMore(committed: seq<Event>, es: seq<Event>)
    requires es != [] && IdsIncrease(committed + es)
    ensures committed == [] || committed[|committed| - 1].id < es[0].id
  {
    var all := committed + es;
    if committed != [] {
      assert all[|committed| - 1].id < all[|committed|].id;
    }
  }

  lemma {:induction false} YieldsLead(s: Bus, n: nat, since: Option<int>)
    requires Listening(s) && s.taken + n <= |s.arrived|
    ensures Leads(s, Yields(n), since, s.(taken := s.taken + n))
    decreases n
  {
    if n > 0 {
      var t := s.(taken := s.taken + 1);
      assert Next(s, Yield, since) == t;
      assert ([Yield] + Yields(n - 1))[1..] == Yields(n - 1);
      YieldsLead(t, n - 1, since);
    }
  }

  /** A full queue's worth of events, one too many, one taken, one more, and the rest taken. */
  function SlowRun(es: seq<Event>, d: Event, l: Event): seq<Step> {
    [Register, Query] + (EmitAll(es) + (EmitSteps(d) + (Yields(1) + (EmitSteps(l) + Yields(QUEUE_SIZE)))))
  }

  /** A listening subscriber of a bus that was empty at first. */
  function Slow(committed: seq<Event>, arrived: seq<Event>, taken: nat, dropped: set<Event>): Bus {
    Bus(committed, {}, 0, map[], true, Some([]), 0, 0, arrived, taken, {}, dropped)
  }

  /** A slow subscriber, and no race at all: the queue is full when `d` comes, so `d` is dropped; room
      is made, `l` gets through, and everything is taken. Resuming from `l`, the last id received,
      never gives `d`. */
  lemma FullQueueSkips(es: seq<Event>, d: Event, l: Event, since: int)
    requires |es| == QUEUE_SIZE && IdsIncrease(es + [d, l])
    ensures var s := Slow(es + [d] + [l], es + [l], 1 + QUEUE_SIZE, {d});
            && Leads(Start([], 0), SlowRun(es, d, l), Some(since), s)
            && Bounds(s) && Drained(s) && Yielded(s) == es + [l]
            && d in s.committed && d !in Yielded(s) && d !in Replayed(s, Some(l.id))
  {
    PrefixIncreases(es, d, l);
    SlowEnd(es, d, l);
    SlowStart(es, since);
    SlowMiddle(es, d, l, since);
    SlowTail(es, d, l, since);
    hide *;
    SixLegs(Start([], 0), [Register, Query], Slow([], [], 0, {}), EmitAll(es), Slow(es, es, 0, {}), EmitSteps(d),
            Slow(es + [d], es, 0, {d}), Yields(1), Slow(es + [d], es, 1, {d}), EmitSteps(l),
            Slow(es + [d] + [l], es + [l], 1, {d}), Yields(QUEUE_SIZE),
            Slow(es + [d] + [l], es + [l], 1 + QUEUE_SIZE, {d}), Some(since));
    SlowRunIs(es, d, l);
  }

  lemma SlowStart(es: seq<Event>, since: int)
    requires |es| == QUEUE_SIZE && IdsIncrease(es)
    ensures Leads(Start([], 0), [Register, Query], Some(since), Slow([], [], 0, {}))
    ensures Leads(Slow([], [], 0, {}), EmitAll(es), Some(since), Slow(es, es, 0, {}))
  {
    OpensQuietly(since);
    assert Start([], 0).(registered := true, replay := Some([])) == Slow([], [], 0, {});
    hide Leads, Filter;
    assert [] + es == es;
    EmitAllLeads(Slow([], [], 0, {}), es, Some(since));
  }

  lemma SlowMiddle(es: seq<Event>, d: Event, l: Event, since: int)
    requires |es| == QUEUE_SIZE && es[|es| - 1].id < d.id
    ensures Leads(Slow(es, es, 0, {}), EmitSteps(d), Some(since), Slow(es + [d], es, 0, {d}))
    ensures Leads(Slow(es + [d], es, 0, {d}), Yields(1), Some(since), Slow(es + [d], es, 1, {d}))
  {
    hide Leads;
    assert {} + {d} == {d};
    EmitLeads(Slow(es, es, 0, {}), d, Some(since));
    YieldsLead(Slow(es + [d], es, 0, {d}), 1, Some(since));
  }

  lemma SlowTail(es: seq<Event>, d: Event, l: Event, since: int)
    requires |es| == QUEUE_SIZE && d.id < l.id
    ensures Leads(Slow(es + [d], es, 1, {d}), EmitSteps(l), Some(since), Slow(es + [d] + [l], es + [l], 1, {d}))
    ensures Leads(Slow(es + [d] + [l], es + [l], 1, {d}), Yields(QUEUE_SIZE), Some(since),
                  Slow(es + [d] + [l], es + [l], 1 + QUEUE_SIZE, {d}))
  {
    hide Leads;
    EmitLeads(Slow(es + [d], es, 1, {d}), l, Some(since));
    YieldsLead(Slow(es + [d] + [l], es + [l], 1, {d}), QUEUE_SIZE, Some(since));
  }

  lemma SlowRunIs(es: seq<Event>, d: Event, l: Event)
    ensures SlowRun(es, d, l)
         == [Register, Query] + (EmitAll(es) + (EmitSteps(d) + (Yields(1) + (EmitSteps(l) + Yields(QUEUE_SIZE)))))
  {
  }

  lemma SixLegs(s0: Bus, a: seq<Step>, s1: Bus, b: seq<Step>, s2: Bus, c: seq<Step>, s3: Bus, d: seq<Step>, s4: Bus,
                e: seq<Step>, s5: Bus, f: seq<Step>, s6: Bus, since: Option<int>)
    requires Leads(s0, a, since, s1) && Leads(s1, b, since, s2) && Leads(s2, c, since, s3)
    requires Leads(s3, d, since, s4) && Leads(s4, e, since, s5) && Leads(s5, f, since, s6)
    ensures Leads(s0, a + (b + (c + (d + (e + f)))), since, s6)
  {
    hide *;
    LeadsOn(s4, e, s5, f, s6, since);
    LeadsOn(s3, d, s4, e + f, s6, since);
    LeadsOn(s2, c, s3, d + (e + f), s6, since);
    LeadsOn(s1, b, s2, c + (d + (e + f)), s6, since);
    LeadsOn(s0, a, s1, b + (c + (d + (e + f))), s6, since);
  }

  lemma OpensQuietly(since: int)
    ensures Leads(Start([], 0), [Register, Query], Some(since), Start([], 0).(registered := true, replay := Some([])))
  {
    var s0 := Start([], 0);
    var s1 := Next(s0, Register, Some(since));
    var s2 := Next(s1, Query, Some(since));
    assert [Register, Query][1..] == [Query] && [Query][1..] == [];
    assert Legal(s2, [], Some(since)) && Legal(s1, [Query], Some(since));
  }

  lemma PrefixIncreases(es: seq<Event>, d: Event, l: Event)
    requires IdsIncrease(es + [d, l]) && es != []
    ensures IdsIncrease(es) && es[|es| - 1].id < d.id < l.id && forall e :: e in es ==> e.id < d.id
  {
    var all := es + [d, l];
    assert all[|es|] == d && all[|es| + 1] == l;
    assert forall i :: 0 <= i < |es| ==> all[i] == es[i];
  }

  lemma SlowEnd(es: seq<Event>, d: Event, l: Event)
    requires |es| == QUEUE_SIZE && d.id < l.id && forall e :: e in es ==> e.id < d.id
    ensures var s := Slow(es + [d] + [l], es + [l], 1 + QUEUE_SIZE, {d});
            && Bounds(s) && Drained(s) && Yielded(s) == es + [l]
            && d in s.committed && d !in Yielded(s) && d !in Replayed(s, Some(l.id))
  {
    assert (es + [l])[..1 + QUEUE_SIZE] == es + [l];
    assert [] + (es + [l]) == es + [l];
  }

  /** An emit whose commit fails is put on the queue all the same. */
  lemma FailedEmitLeads(s: Bus, e: Event, since: Option<int>)
    requires Listening(s) && Enabled(s, CommitFails(e)) && |s.arrived| - s.taken < QUEUE_SIZE
    ensures var t := s.(lost := s.lost + {e}, arrived := s.arrived + [e]);
            Leads(s, [CommitFails(e), Snapshot(e), Put(e)], since, t) && Listening(t)
  {
    var t := s.(lost := s.lost + {e}, arrived := s.arrived + [e]);
    var s1 := Next(s, CommitFails(e), since);
    var s2 := Next(s1, Snapshot(e), since);
    assert s2.emits - {e} == map[];
    assert Next(s2, Put(e), since) == t;
    assert Legal(t, [], since);
    ThreeSteps(s, CommitFails(e), Snapshot(e), Put(e), [], since);
    assert [CommitFails(e)] + ([Snapshot(e)] + ([Put(e)] + [])) == [CommitFails(e), Snapshot(e), Put(e)];
  }

  /** No race and no full queue: the commit of `a` fails, but its fan-out reaches the subscriber, which
      hangs up; the next event committed gets the same id. Resuming from it never gives that event. */
  lemma LostIdIsReused(a: Event, b: Event, since: int)
    requires a != b && a.id == b.id > since && a.id >= 0
    ensures var heard := Start([], 0).(registered := true, replay := Some([]), lost := {a}, arrived := [a], taken := 1);
            var steps := [Register, Query] + ([CommitFails(a), Snapshot(a), Put(a)] + Yields(1));
            && Leads(Start([], 0), steps, Some(since), heard)
            && Bounds(heard) && Drained(heard) && Yielded(heard) == [a] && heard.dropped == {}
            && Enabled(heard, Commit(b))
            && b in Next(heard, Commit(b), Some(since)).committed
            && b !in Replayed(Next(heard, Commit(b), Some(since)), Some(a.id))
  {
    var open := Start([], 0).(registered := true, replay := Some([]));
    var put := open.(lost := {a}, arrived := [a]);
    OpensQuietly(since);
    FailedEmitLeads(open, a, Some(since));
    assert {} + {a} == {a} && [] + [a] == [a];
    YieldsLead(put, 1, Some(since));
    assert [a][..1] == [a] && [] + [a] == [a];
    hide Legal, Leads, Next, Filter;
    LeadsOn(open, [CommitFails(a), Snapshot(a), Put(a)], put, Yields(1), put.(taken := 1), Some(since));
    var heard := put.(taken := 1);
    var rest := [CommitFails(a), Snapshot(a), Put(a)] + Yields(1);
    LeadsOn(Start([], 0), [Register, Query], open, rest, heard, Some(since));
    CommitIs(put.(taken := 1), b, Some(since));
  }

  lemma CommitIs(s: Bus, e: Event, since: Option<int>)
    requires Enabled(s, Commit(e))
    ensures Next(s, Commit(e), since) == s.(committed := s.committed + [e], emits := s.emits[e := Committed])
  {
  }

  /** A queue nobody reads holds the oldest events offered, up to its size, and none after. */
  function OfferAll(items: seq<Event>, es: seq<Event>): seq<Event> {
    if es == [] then items else Offered(OfferAll(items, es[..|es| - 1]), es[|es| - 1])
  }

  lemma {:induction false} QueueKeepsOldest(items: seq<Event>, es: seq<Event>)
    requires |items| <= QUEUE_SIZE
    ensures OfferAll(items, es) == Take(items + es, 512)
    decreases |es|
  {
    if es == [] {
      assert items + [] == items;
    } else {
      QueueKeepsOldest(items, es[..|es| - 1]);
      assert items + es == (items + es[..|es| - 1]) + [es[|es| - 1]];
    }
  }

  /** The put of the interleaved model is the put of the queue object. */
  lemma PutIsOffered(s: Bus, e: Event, since: Option<int>)
    requires Enabled(s, Put(e)) && s.emits[e].seesUs && s.taken <= |s.arrived|
    ensures var t := Next(s, Put(e), since);
            t.taken == s.taken && t.arrived[t.taken..] == Offered(s.arrived[s.taken..], e)
  {
  }

  /** Two emits race: `b` is committed after `a` but put on the queue first. A subscriber that hangs
      up after yielding `b` and resumes from its id is never given `a`. */
  lemma OvertakenEventIsSkipped(a: Event, b: Event, since: int)
    requires since < a.id < b.id && a.id >= 0
    ensures var steps := [Register, Query, Commit(a), Commit(b), Snapshot(a), Snapshot(b), Put(b), Yield];
            var start := Start([], 0);
            && Legal(start, steps, Some(since))
            && (var s := After(start, steps, Some(since));
                && Bounds(s) && Yielded(s) == [b] && a in s.committed
                && a !in Replayed(s, Some(b.id)))
  {
    var steps := [Register, Query, Commit(a), Commit(b), Snapshot(a), Snapshot(b), Put(b), Yield];
    var at := Some(since);
    var s3 := Bus([a], {}, 0, map[a := Committed], true, Some([]), 0, 0, [], 0, {}, {});
    var s4 := Bus([a, b], {}, 0, map[a := Committed, b := Committed], true, Some([]), 0, 0, [], 0, {}, {});
    hide Legal, After, Filter;
    OvertakingStarts(a, since);
    OvertakingEnds(a, b, at);
    assert [a] + [b] == [a, b] && map[a := Committed][b := Committed] == map[a := Committed, b := Committed];
    assert Next(s3, Commit(b), at) == s4;
    var tail := [Snapshot(a), Snapshot(b), Put(b), Yield];
    OneStep(s3, Commit(b), tail, at);
    ThreeSteps(Start([], 0), Register, Query, Commit(a), [Commit(b)] + tail, at);
    assert [Register] + ([Query] + ([Commit(a)] + ([Commit(b)] + tail))) == steps;
    var s := After(Start([], 0), steps, at);
    assert s == Bus([a, b], {}, 0, map[a := Snapshotted(true)], true, Some([]), 0, 0, [b], 1, {}, {});
    assert [b][..1] == [b] && [] + [b] == [b];
    assert a in [a, b];
  }

  lemma OvertakingStarts(a: Event, since: int)
    requires a.id > since && a.id >= 0
    ensures var at := Some(since);
            var s := Start([], 0);
            && Enabled(s, Register) && Enabled(Next(s, Register, at), Query)
            && Enabled(Next(Next(s, Register, at), Query, at), Commit(a))
            && Next(Next(Next(s, Register, at), Query, at), Commit(a), at)
               == Bus([a], {}, 0, map[a := Committed], true, Some([]), 0, 0, [], 0, {}, {})
  {
  }

  lemma OvertakingEnds(a: Event, b: Event, at: Option<int>)
    requires a.id < b.id
    ensures var s := Bus([a, b], {}, 0, map[a := Committed, b := Committed], true, Some([]), 0, 0, [], 0, {}, {});
            var steps := [Snapshot(a), Snapshot(b), Put(b), Yield];
            && Legal(s, steps, at)
            && After(s, steps, at)
               == Bus([a, b], {}, 0, map[a := Snapshotted(true)], true, Some([]), 0, 0, [b], 1, {}, {})
  {
    var s0 := Bus([a, b], {}, 0, map[a := Committed, b := Committed], true, Some([]), 0, 0, [], 0, {}, {});
    var s1 := Next(s0, Snapshot(a), at);
    var s2 := Next(s1, Snapshot(b), at);
    var s3 := Next(s2, Put(b), at);
    var s4 := Bus([a, b], {}, 0, map[a := Snapshotted(true)], true, Some([]), 0, 0, [b], 1, {}, {});
    assert s2.emits - {b} == map[a := Snapshotted(true)];
    assert Next(s3, Yield, at) == s4;
    assert Legal(s4, [], at) && After(s4, [], at) == s4;
    hide Legal, After;
    OneStep(s3, Yield, [], at);
    ThreeSteps(s0, Snapshot(a), Snapshot(b), Put(b), [Yield], at);
    assert [Yield] + [] == [Yield];
    assert [Snapshot(a)] + ([Snapshot(b)] + ([Put(b)] + [Yield])) == [Snapshot(a), Snapshot(b), Put(b), Yield];
  }

  lemma ThreeSteps(s: Bus, one: Step, two: Step, three: Step, rest: seq<Step>, since: Option<int>)
    requires Enabled(s, one)
    requires Enabled(Next(s, one, since), two)
    requires Enabled(Next(Next(s, one, since), two, since), three)
    requires Legal(Next(Next(Next(s, one, since), two, since), three, since), rest, since)
    ensures var steps := [one] + ([two] + ([three] + rest));
            && Legal(s, steps, since)
            && After(s, steps, since) == After(Next(Next(Next(s, one, since), two, since), three, since), rest, since)
  {
    hide *;
    OneStep(Next(Next(s, one, since), two, since), three, rest, since);
    OneStep(Next(s, one, since), two, [three] + rest, since);
    OneStep(s, one, [two] + ([three] + rest), since);
  }

  lemma OneStep(s: Bus, step: Step, rest: seq<Step>, since: Option<int>)
    requires Enabled(s, step) && Legal(Next(s, step, since), rest, since)
    ensures Legal(s, [step] + rest, since)
    ensures After(s, [step] + rest, since) == After(Next(s, step, since), rest, since)
  {
    assert ([step] + rest)[1..] == rest;
  }

  lemma {:induction false} DistinctCount(s: seq<Event>, e: Event)
    requires Distinct(s)
    ensures multiset(s)[e] == if e in s then 1 else 0
    decreases |s|
  {
    if s != [] {
      assert s == [s[0]] + s[1..];
      DistinctCount(s[1..], e);
    }
  }

  // ---------- Vacuum ----------

  /** `ORDER BY id DESC LIMIT n`; a negative limit is no limit. */
  function Newest(table: seq<Event>, n: int): seq<Event> {
    if n < 0 || n >= |table| then table else table[|table| - n..]
  }

  function Fresh(cutoff: Option<int>): Event -> bool {
    (e: Event) => cutoff.Some? && e.ts >= cutoff.value
  }

  function LeastId(rows: seq<Event>): Option<int> {
    if rows == [] then None else Some(rows[0].id)
  }

  /** The lower of the two rules' oldest rows; no floor when neither rule keeps anything. */
  function KeepFloor(table: seq<Event>, n: int, cutoff: Option<int>): Option<int> {
    var recent := LeastId(Newest(table, n));
    var aged := LeastId(Filter(table, Fresh(cutoff)));
    if recent.None? then aged
    else if aged.None? then recent
    else if aged.value < recent.value then aged else recent
  }

  function FromFloor(floor: int): Event -> bool {
    (e: Event) => e.id >= floor
  }

  function Vacuumed(table: seq<Event>, n: int, cutoff: Option<int>): seq<Event> {
    var floor := KeepFloor(table, n, cutoff);
    if floor.None? then table else Filter(table, FromFloor(floor.value))
  }

  ghost predicate TimesNeverFall(table: seq<Event>) {
    forall i, j :: 0 <= i < j < |table| ==> table[i].ts <= table[j].ts
  }

  lemma LeastIsLeast(rows: seq<Event>, e: Event)
    requires IdsIncrease(rows) && e in rows
    ensures LeastId(rows).Some? && LeastId(rows).value <= e.id
  {
  }

  lemma NewestIncreases(table: seq<Event>, n: int)
    requires IdsIncrease(table)
    ensures IdsIncrease(Newest(table, n))
  {
  }

  lemma FloorBelow(table: seq<Event>, n: int, cutoff: Option<int>, e: Event)
    requires IdsIncrease(table) && e in table && (e in Newest(table, n) || Fresh(cutoff)(e))
    ensures KeepFloor(table, n, cutoff).Some? && KeepFloor(table, n, cutoff).value <= e.id
  {
    FilterIncreases(table, Fresh(cutoff));
    NewestIncreases(table, n);
    hide IdsIncrease, LeastId, Newest;
    if e in Newest(table, n) {
      LeastIsLeast(Newest(table, n), e);
    }
    if Fresh(cutoff)(e) {
      LeastIsLeast(Filter(table, Fresh(cutoff)), e);
    }
  }

  /** How many rows were committed after `id`. */
  function CountAbove(table: seq<Event>, id: int): nat {
    if table == [] then 0 else (if table[0].id > id then 1 else 0) + CountAbove(table[1..], id)
  }

  /** One of the two rules asks for the row: it is among the last `n`, or no older than the cutoff. */
  predicate Asked(table: seq<Event>, n: int, cutoff: Option<int>, e: Event) {
    n < 0 || CountAbove(table, e.id) < n || (cutoff.Some? && e.ts >= cutoff.value)
  }

  /** No rule asks for anything, or one asks for this row or an older one. */
  ghost predicate Survives(table: seq<Event>, n: int, cutoff: Option<int>, e: Event) {
    || (forall r :: r in table ==> !Asked(table, n, cutoff, r))
    || (exists r :: r in table && Asked(table, n, cutoff, r) && r.id <= e.id)
  }

  lemma {:induction false} CountAt(table: seq<Event>, k: nat, id: int)
    requires IdsIncrease(table) && k <= |table|
    requires forall i :: 0 <= i < |table| ==> (table[i].id > id <==> i >= k)
    ensures CountAbove(table, id) == |table| - k
    decreases |table|
  {
    if table != [] {
      CountAt(table[1..], if k == 0 then 0 else k - 1, id);
    }
  }

  lemma AskedIs(table: seq<Event>, n: int, cutoff: Option<int>, e: Event)
    requires IdsIncrease(table) && e in table
    ensures Asked(table, n, cutoff, e) <==> e in Newest(table, n) || Fresh(cutoff)(e)
  {
    var k :| 0 <= k < |table| && table[k] == e;
    CountAt(table, k + 1, e.id);
    if 0 <= n < |table| {
      var recent := Newest(table, n);
      if k >= |table| - n {
        assert recent[k - (|table| - n)] == e;
      }
    }
  }

  /** Both rules are honoured: no row that one of them asks for is deleted. */
  lemma VacuumSpares(table: seq<Event>, n: int, cutoff: Option<int>, e: Event)
    requires IdsIncrease(table) && e in table && Asked(table, n, cutoff, e)
    ensures e in Vacuumed(table, n, cutoff)
  {
    AskedIs(table, n, cutoff, e);
    FloorBelow(table, n, cutoff, e);
    hide KeepFloor, Newest, IdsIncrease, Asked;
  }

  /** The row at the floor is one that a rule asks for. */
  lemma FloorIsAsked(table: seq<Event>, n: int, cutoff: Option<int>)
    requires IdsIncrease(table) && KeepFloor(table, n, cutoff).Some?
    ensures exists e :: e in table && Asked(table, n, cutoff, e) && e.id == KeepFloor(table, n, cutoff).value
  {
    var recent, aged := Newest(table, n), Filter(table, Fresh(cutoff));
    var e := if recent == [] || (aged != [] && aged[0].id < recent[0].id) then aged[0] else recent[0];
    assert recent != [] ==> recent[0] in recent;
    assert aged != [] ==> aged[0] in aged;
    assert e in table && e.id == KeepFloor(table, n, cutoff).value;
    AskedIs(table, n, cutoff, e);
  }

  /** What the vacuum leaves of any table: everything from the oldest row on that a rule asks for, and
      everything when the rules ask for nothing. */
  lemma VacuumLeaves(table: seq<Event>, n: int, cutoff: Option<int>, e: Event)
    requires IdsIncrease(table) && e in table
    ensures e in Vacuumed(table, n, cutoff) <==> Survives(table, n, cutoff, e)
  {
    var floor := KeepFloor(table, n, cutoff);
    if floor.Some? {
      FloorIsAsked(table, n, cutoff);
    }
    forall r | r in table && Asked(table, n, cutoff, r) ensures floor.Some? && floor.value <= r.id {
      AskedIs(table, n, cutoff, r);
      FloorBelow(table, n, cutoff, r);
    }
    hide KeepFloor, Asked, IdsIncrease;
  }

  /** With clock and ids in step, the vacuum keeps exactly the rows one of the two rules asks for, unless
      the rules ask for nothing of a table that has rows: then it deletes nothing. */
  lemma VacuumExactIff(table: seq<Event>, n: int, cutoff: Option<int>)
    requires IdsIncrease(table) && TimesNeverFall(table)
    ensures (forall e :: e in table ==> (e in Vacuumed(table, n, cutoff) <==> Asked(table, n, cutoff, e)))
       <==> (table == [] || n != 0 || exists e :: e in table && cutoff.Some? && e.ts >= cutoff.value)
  {
    forall e | e in table
      ensures e in Vacuumed(table, n, cutoff) <==> Survives(table, n, cutoff, e)
      ensures Survives(table, n, cutoff, e) && !Asked(table, n, cutoff, e) ==>
                forall r :: r in table ==> !Asked(table, n, cutoff, r)
    {
      VacuumLeaves(table, n, cutoff, e);
      OnlyAskedSurvive(table, n, cutoff, e);
    }
    forall e | e in table && Asked(table, n, cutoff, e) ensures Survives(table, n, cutoff, e) {
    }
    if table != [] {
      LastIsAsked(table, n, cutoff);
    }
    forall e | e in table && n == 0 ensures Asked(table, n, cutoff, e) <==> cutoff.Some? && e.ts >= cutoff.value {
    }
    hide Vacuumed, IdsIncrease, TimesNeverFall, Asked, Survives;
    if table != [] {
      assert table[|table| - 1] in table;
    }
  }

  lemma LastIsAsked(table: seq<Event>, n: int, cutoff: Option<int>)
    requires IdsIncrease(table) && table != []
    ensures n != 0 ==> Asked(table, n, cutoff, table[|table| - 1])
  {
    CountAt(table, |table|, table[|table| - 1].id);
  }

  lemma OnlyAskedSurvive(table: seq<Event>, n: int, cutoff: Option<int>, e: Event)
    requires IdsIncrease(table) && TimesNeverFall(table) && e in table
    ensures Survives(table, n, cutoff, e) ==>
              Asked(table, n, cutoff, e) || forall r :: r in table ==> !Asked(table, n, cutoff, r)
  {
    if r :| r in table && Asked(table, n, cutoff, r) && r.id <= e.id {
      LaterIsAsked(table, n, cutoff, r, e);
    }
  }

  lemma LaterIsAsked(table: seq<Event>, n: int, cutoff: Option<int>, r: Event, e: Event)
    requires IdsIncrease(table) && TimesNeverFall(table) && r in table && e in table && r.id <= e.id
    requires Asked(table, n, cutoff, r)
    ensures Asked(table, n, cutoff, e)
  {
    var i :| 0 <= i < |table| && table[i] == r;
    var k :| 0 <= k < |table| && table[k] == e;
    CountAt(table, i + 1, r.id);
    CountAt(table, k + 1, e.id);
  }

  lemma {:induction false} FloorIsSuffix(table: seq<Event>, floor: int)
    requires IdsIncrease(table)
    ensures var kept := Filter(table, FromFloor(floor)); kept == table[|table| - |kept|..]
    decreases |table|
  {
    if table != [] {
      if table[0].id >= floor {
        FilterAll(table, FromFloor(floor));
      } else {
        FloorIsSuffix(table[1..], floor);
      }
    }
  }

  /** What is left is the end of the table; with the count rule alone, the last `n` rows of a table that has
      as many. */
  lemma VacuumIsSuffix(table: seq<Event>, n: int, cutoff: Option<int>)
    requires IdsIncrease(table)
    ensures var kept := Vacuumed(table, n, cutoff);
            && |kept| <= |table| && kept == table[|table| - |kept|..]
            && (cutoff.None? && 0 < n <= |table| ==> |kept| == n)
  {
    var floor := KeepFloor(table, n, cutoff);
    if floor.Some? {
      FloorIsSuffix(table, floor.value);
    }
    if cutoff.None? && 0 < n <= |table| {
      FilterNone(table, Fresh(cutoff));
      LastRows(table, n);
    }
  }

  lemma LastRows(table: seq<Event>, n: nat)
    requires IdsIncrease(table) && 0 < n <= |table|
    ensures |Filter(table, FromFloor(table[|table| - n].id))| == n
  {
    var k := |table| - n;
    var early, recent, p := table[..k], table[k..], FromFloor(table[k].id);
    assert table == early + recent;
    FilterConcat(early, recent, p);
    FilterNone(early, p);
    FilterAll(recent, p);
  }

  lemma SuffixIncreases(table: seq<Event>, kept: seq<Event>, top: int)
    requires IdsIncrease(table) && (forall e :: e in table ==> e.id <= top)
    requires |kept| <= |table| && kept == table[|table| - |kept|..]
    ensures IdsIncrease(kept) && forall e :: e in kept ==> e.id <= top
  {
  }

  // ---------- The objects ----------

  class Queue {
    var items: seq<Event>

    constructor ()
      ensures items == []
    {
      items := [];
    }

    /** `put_nowait`: an event that finds the queue full is gone, and what waits there stays in order. */
    method PutNowait(e: Event)
      modifies this
      ensures items == Offered(old(items), e)
      ensures |old(items)| <= QUEUE_SIZE ==> |items| <= QUEUE_SIZE && items == Take(old(items) + [e], QUEUE_SIZE)
    {
      if |items| < QUEUE_SIZE {
        items := items + [e];
      }
    }
  }

  /** How far the database gets with an emit. */
  datatype Db = Commits | CommitRaises | InsertFails

  class Board {
    var table: seq<Event>
    var lastId: nat
    var calls: nat
    var subscribers: seq<Queue>

    ghost predicate Valid()
      reads this
    {
      && IdsIncrease(table) && (forall e :: e in table ==> e.id <= lastId)
      && forall i, j :: 0 <= i < j < |subscribers| ==> subscribers[i] != subscribers[j]
    }

    constructor ()
      ensures Valid() && table == [] && subscribers == []
    {
      table, lastId, calls, subscribers := [], 0, 0, [];
    }

    /** Register a subscriber, then read what it has to replay. */
    method Subscribe(since: Option<int>) returns (q: Queue, replay: seq<Event>)
      requires Valid()
      modifies this
      ensures Valid() && table == old(table) && lastId == old(lastId) && calls == old(calls)
      ensures fresh(q) && q.items == [] && subscribers == old(subscribers) + [q]
      ensures since.None? ==> replay == []
      ensures since.Some? ==> IdsIncrease(replay) && forall e :: e in replay <==> e in table && e.id > since.value
    {
      q := new Queue();
      subscribers := subscribers + [q];
      replay := [];
      if since.Some? {
        replay := Filter(table, Past(since.value));
        FilterIncreases(table, Past(since.value));
      }
    }

    static function Past(since: int): Event -> bool {
      (e: Event) => e.id > since
    }

    /** Commit first, then offer the event to every subscriber of the moment, once each. An event
        whose commit fails after it got its id is offered all the same. */
    method Emit(ts: int, body: string, db: Db) returns (e: Option<Event>)
      requires Valid()
      modifies this, set q | q in subscribers
      ensures Valid() && subscribers == old(subscribers)
      ensures e == if db.InsertFails? then None else Some(Event(old(lastId) + 1, ts, body, old(calls)))
      ensures table == if db.Commits? then old(table) + [e.value] else old(table)
      ensures lastId == if db.Commits? then old(lastId) + 1 else old(lastId)
      ensures calls == old(calls) + 1
      ensures forall q :: q in subscribers ==>
                q.items == if e.Some? then Offered(old(q.items), e.value) else old(q.items)
    {
      var call := calls;
      calls := calls + 1;
      if db.InsertFails? {
        return None;
      }
      var event := Event(lastId + 1, ts, body, call);
      if db.Commits? {
        lastId := lastId + 1;
        table := table + [event];
      }
      Offer(event);
      return Some(event);
    }

    method Offer(e: Event)
      requires Valid()
      modifies set q | q in subscribers
      ensures Valid()
      ensures forall q :: q in subscribers ==> q.items == Offered(old(q.items), e)
    {
      var live := subscribers;
      var i := 0;
      while i < |live|
        invariant 0 <= i <= |live| && live == subscribers && Valid()
        invariant forall k :: 0 <= k < i ==> live[k].items == Offered(old(live[k].items), e)
        invariant forall k :: i <= k < |live| ==> live[k].items == old(live[k].items)
      {
        live[i].PutNowait(e);
        i := i + 1;
      }
    }

    /** Deletes below the floor; says how many rows went. */
    method VacuumEvents(retainCount: int, cutoff: Option<int>) returns (deleted: nat)
      requires Valid()
      modifies this
      ensures Valid() && subscribers == old(subscribers) && lastId == old(lastId) && calls == old(calls)
      ensures deleted + |table| == |old(table)| && table == old(table)[deleted..]
      ensures forall e :: e in old(table) ==> (e in table <==> Survives(old(table), retainCount, cutoff, e))
      ensures cutoff.None? && 0 < retainCount <= |old(table)| ==> |table| == retainCount
    {
      hide IdsIncrease, Vacuumed, Survives, Asked;
      var kept := Vacuumed(table, retainCount, cutoff);
      forall e | e in table ensures e in kept <==> Survives(table, retainCount, cutoff, e) {
        VacuumLeaves(table, retainCount, cutoff, e);
      }
      VacuumIsSuffix(table, retainCount, cutoff);
      SuffixIncreases(table, kept, lastId);
      deleted := |table| - |kept|;
      table := kept;
    }
  }
}
