/** The worker pool of the Go server: workers that put their private job channel into a shared channel of channels, a
    dispatcher that starts one goroutine per job, and goroutines that fetch a channel and hand the job over. */
module Dispatcher {

  import opened Collections

  /** Jobs are numbered in the order in which connections are accepted. */
  type Job = nat

  /** About to send its channel to the pool, at the select, or inside handle. */
  datatype Worker = Registering | Waiting | Running(job: Job)

  /** The goroutine started for one job: receiving from the pool, or sending on the channel it received. */
  datatype Carrier = Seeking | Holding(worker: nat)

  /** Not yet at its first select, or blocked there on a queue variable that was still nil, or serving the queue. */
  datatype Loop = NotEntered | OnNil | OnQueue

  datatype State = State(
    made: bool, loop: Loop, next: Job, queue: seq<Job>, carriers: map<Job, Carrier>,
    workers: seq<Worker>, pool: seq<nat>, done: set<Job>)

  predicate Initial(s: State)
  {
    && !s.made && s.loop == NotEntered && s.next == 0 && s.queue == [] && s.carriers == map[]
    && (forall w | 0 <= w < |s.workers| :: s.workers[w] == Registering) && s.pool == [] && s.done == {}
  }

  datatype Event =
    | MakeQueue | EnterLoop
    | Accept
    | Dispatch
    | Register(worker: nat)
    | Fetch(job: Job)
    | HandOver(job: Job)
    | Finish(worker: nat)

  /** The pool has room for all the workers; the queue for `capacity` jobs. */
  predicate Enabled(s: State, e: Event, capacity: nat)
  {
    match e
    case MakeQueue => !s.made
    case EnterLoop => s.loop == NotEntered
    case Accept => s.made && |s.queue| < capacity
    case Dispatch => s.loop == OnQueue && s.queue != []
    case Register(w) => w < |s.workers| && s.workers[w] == Registering && |s.pool| < |s.workers|
    case Fetch(j) => j in s.carriers && s.carriers[j] == Seeking && s.pool != []
    case HandOver(j) =>
      && j in s.carriers && s.carriers[j].Holding?
      && s.carriers[j].worker < |s.workers| && s.workers[s.carriers[j].worker] == Waiting
    case Finish(w) => w < |s.workers| && s.workers[w].Running?
  }

  function Apply(s: State, e: Event, capacity: nat): State
    requires Enabled(s, e, capacity)
  {
    match e
    case MakeQueue => s.(made := true)
    case EnterLoop => s.(loop := if s.made then OnQueue else OnNil)
    case Accept => s.(next := s.next + 1, queue := s.queue + [s.next])
    case Dispatch => s.(queue := s.queue[1..], carriers := s.carriers[s.queue[0] := Seeking])
    case Register(w) => s.(pool := s.pool + [w], workers := s.workers[w := Waiting])
    case Fetch(j) => s.(pool := s.pool[1..], carriers := s.carriers[j := Holding(s.pool[0])])
    case HandOver(j) => s.(carriers := s.carriers - {j}, workers := s.workers[s.carriers[j].worker := Running(j)])
    case Finish(w) => s.(workers := s.workers[w := Registering], done := s.done + {s.workers[w].job})
  }

  ghost predicate Runs(s: State, events: seq<Event>, s': State, capacity: nat)
    decreases |events|
  {
    if events == [] then s' == s
    else Enabled(s, events[0], capacity) && Runs(Apply(s, events[0], capacity), events[1..], s', capacity)
  }

  ghost predicate Reachable(s: State, capacity: nat)
  {
    exists start, events :: Initial(start) && Runs(start, events, s, capacity)
  }

  // Where a worker's channel is

  ghost predicate Held(s: State, w: nat, j: Job) { j in s.carriers && s.carriers[j] == Holding(w) }

  /** Every channel is in exactly one place: with its worker while that registers or runs a job, in the pool once, or
      with one goroutine. */
  ghost predicate ChannelsPlaced(s: State)
  {
    && Distinct(s.pool)
    && (forall i | 0 <= i < |s.pool| :: s.pool[i] < |s.workers| && s.workers[s.pool[i]] == Waiting)
    && (forall j: Job, w: nat | Held(s, w, j) :: w < |s.workers| && s.workers[w] == Waiting && w !in s.pool)
    && (forall j: Job, j': Job, w: nat | Held(s, w, j) && Held(s, w, j') :: j == j')
    && (forall w: nat | w < |s.workers| && s.workers[w] == Waiting :: w in s.pool || exists j :: Held(s, w, j))
  }

  // Where a job is

  ghost predicate InQueue(s: State, j: Job) { j in s.queue }
  ghost predicate InFlight(s: State, j: Job) { j in s.carriers }
  ghost predicate IsRunning(s: State, j: Job) { exists w :: 0 <= w < |s.workers| && s.workers[w] == Running(j) }
  ghost predicate IsDone(s: State, j: Job) { j in s.done }

  function Count(b: bool): nat { if b then 1 else 0 }

  /** The places of one job add up to one when it has been accepted and to none before. */
  ghost predicate PlacedOnce(s: State, j: Job)
  {
    Count(InQueue(s, j)) + Count(InFlight(s, j)) + Count(IsRunning(s, j)) + Count(IsDone(s, j)) == Count(j < s.next)
  }

  /** Each accepted job is in exactly one place, and nothing else is anywhere. */
  ghost predicate JobsPlaced(s: State)
  {
    && Distinct(s.queue)
    && (forall w, w' | 0 <= w < |s.workers| && 0 <= w' < |s.workers| && s.workers[w].Running? &&
                       s.workers[w] == s.workers[w'] :: w == w')
    && (forall j: Job :: PlacedOnce(s, j))
  }

  /** The queue holds the jobs accepted last, in the order in which they were accepted. */
  ghost predicate InOrder(s: State)
  {
    |s.queue| <= s.next && forall i | 0 <= i < |s.queue| :: s.queue[i] == s.next - |s.queue| + i
  }

  /** Nothing has left the queue as long as the dispatcher does not serve it. */
  ghost predicate IdleBefore(s: State)
  {
    s.loop != OnQueue ==>
      s.carriers == map[] && s.done == {} && forall w | 0 <= w < |s.workers| :: !s.workers[w].Running?
  }

  ghost predicate Inv(s: State)
  {
    ChannelsPlaced(s) && JobsPlaced(s) && (s.loop == OnQueue ==> s.made) && (!s.made ==> s.next == 0) && IdleBefore(s)
    && InOrder(s)
  }

  lemma InitialInv(s: State)
    requires Initial(s)
    ensures Inv(s)
  {}

  /** A waiting worker's channel is somewhere; the step from s to s' moved it or left it. */
  lemma FetchKeepsChannels(s: State, f: Job, capacity: nat)
    requires ChannelsPlaced(s) && Enabled(s, Fetch(f), capacity)
    ensures ChannelsPlaced(Apply(s, Fetch(f), capacity))
  {
    var s' := Apply(s, Fetch(f), capacity);
    var c := s.pool[0];
    assert forall w: nat, j: Job :: Held(s', w, j) <==> if j == f then w == c else Held(s, w, j);
    assert forall i | 0 <= i < |s'.pool| :: s'.pool[i] == s.pool[i + 1];
    forall w: nat | w < |s'.workers| && s'.workers[w] == Waiting ensures w in s'.pool || exists j :: Held(s', w, j) {
      if w == c { assert Held(s', w, f); }
      else if w in s.pool { var i :| 0 <= i < |s.pool| && s.pool[i] == w; assert s'.pool[i - 1] == w; }
      else { var j :| Held(s, w, j); assert Held(s', w, j); }
    }
  }

  lemma HandOverKeepsChannels(s: State, h: Job, capacity: nat)
    requires ChannelsPlaced(s) && Enabled(s, HandOver(h), capacity)
    ensures ChannelsPlaced(Apply(s, HandOver(h), capacity))
  {
    var s' := Apply(s, HandOver(h), capacity);
    assert Held(s, s.carriers[h].worker, h);
    assert forall w: nat, j: Job :: Held(s', w, j) <==> j != h && Held(s, w, j);
    forall w: nat | w < |s'.workers| && s'.workers[w] == Waiting ensures w in s'.pool || exists j :: Held(s', w, j) {
      if w !in s.pool { var j :| Held(s, w, j); assert Held(s', w, j); }
    }
  }

  lemma RegisterKeepsChannels(s: State, r: nat, capacity: nat)
    requires ChannelsPlaced(s) && Enabled(s, Register(r), capacity)
    ensures ChannelsPlaced(Apply(s, Register(r), capacity))
  {
    var s' := Apply(s, Register(r), capacity);
    assert forall w: nat, j: Job :: Held(s', w, j) <==> Held(s, w, j);
    assert s'.pool[|s.pool|] == r;
    forall w: nat | w < |s'.workers| && s'.workers[w] == Waiting ensures w in s'.pool || exists j :: Held(s', w, j) {
      if w != r && w !in s.pool { var j :| Held(s, w, j); assert Held(s', w, j); }
    }
  }

  lemma OtherKeepsChannels(s: State, e: Event, capacity: nat)
    requires ChannelsPlaced(s) && Enabled(s, e, capacity) && !e.Fetch? && !e.HandOver? && !e.Register?
    requires e.Dispatch? ==> s.queue[0] !in s.carriers
    ensures ChannelsPlaced(Apply(s, e, capacity))
  {
    var s' := Apply(s, e, capacity);
    assert forall w: nat, j: Job :: Held(s', w, j) <==> Held(s, w, j);
    forall w: nat | w < |s'.workers| && s'.workers[w] == Waiting ensures w in s'.pool || exists j :: Held(s', w, j) {
      if w !in s.pool { var j :| Held(s, w, j); assert Held(s', w, j); }
    }
  }

  lemma QueueEventsKeepJobs(s: State, e: Event, capacity: nat)
    requires JobsPlaced(s) && Enabled(s, e, capacity) && (e.Accept? || e.Dispatch?)
    ensures JobsPlaced(Apply(s, e, capacity))
  {
    var s' := Apply(s, e, capacity);
    var h := if e.Accept? then s.next else s.queue[0];
    assert PlacedOnce(s, h);
    assert e.Accept? ==> h !in s.queue;
    forall j: Job ensures PlacedOnce(s', j) {
      assert PlacedOnce(s, j);
      assert IsRunning(s', j) <==> IsRunning(s, j);
      if e.Accept? {
        assert InQueue(s', j) <==> InQueue(s, j) || j == h;
      } else {
        assert s.queue == [h] + s.queue[1..];
        assert InQueue(s', j) <==> InQueue(s, j) && j != h;
        assert InFlight(s', j) <==> InFlight(s, j) || j == h;
      }
    }
  }

  lemma WorkerEventsKeepJobs(s: State, e: Event, capacity: nat)
    requires JobsPlaced(s) && Enabled(s, e, capacity) && (e.Register? || e.HandOver? || e.Finish?)
    ensures JobsPlaced(Apply(s, e, capacity))
  {
    var s' := Apply(s, e, capacity);
    var c := if e.HandOver? then s.carriers[e.job].worker else e.worker;
    assert forall w | 0 <= w < |s.workers| && w != c :: s'.workers[w] == s.workers[w];
    if e.HandOver? { assert PlacedOnce(s, e.job); assert !IsRunning(s, e.job); }
    forall j: Job ensures PlacedOnce(s', j) {
      assert PlacedOnce(s, j);
      if s.workers[c] != Running(j) && s'.workers[c] != Running(j) {
        assert IsRunning(s', j) <==> IsRunning(s, j);
      } else if e.HandOver? {
        assert s'.workers[c] == Running(j) && IsRunning(s', j) && InFlight(s, j);
      } else {
        assert IsRunning(s, j) && !IsRunning(s', j) && IsDone(s', j);
      }
    }
  }

  lemma OtherEventsKeepJobs(s: State, e: Event, capacity: nat)
    requires JobsPlaced(s) && Enabled(s, e, capacity) && (e.MakeQueue? || e.EnterLoop? || e.Fetch?)
    ensures JobsPlaced(Apply(s, e, capacity))
  {
    var s' := Apply(s, e, capacity);
    forall j: Job ensures PlacedOnce(s', j) {
      assert PlacedOnce(s, j);
      assert IsRunning(s', j) <==> IsRunning(s, j);
    }
  }

  lemma StepKeepsInv(s: State, e: Event, capacity: nat)
    requires Inv(s) && Enabled(s, e, capacity)
    ensures Inv(Apply(s, e, capacity))
  {
    assert e.Dispatch? ==> s.queue[0] !in s.carriers by {
      if e.Dispatch? { assert PlacedOnce(s, s.queue[0]); assert InQueue(s, s.queue[0]); }
    }
    hide ChannelsPlaced, JobsPlaced;
    match e
    case Accept => QueueEventsKeepJobs(s, e, capacity); OtherKeepsChannels(s, e, capacity);
    case Dispatch => QueueEventsKeepJobs(s, e, capacity); OtherKeepsChannels(s, e, capacity);
    case Register(w) => WorkerEventsKeepJobs(s, e, capacity); RegisterKeepsChannels(s, w, capacity);
    case HandOver(j) => WorkerEventsKeepJobs(s, e, capacity); HandOverKeepsChannels(s, j, capacity);
    case Finish(w) => WorkerEventsKeepJobs(s, e, capacity); OtherKeepsChannels(s, e, capacity);
    case Fetch(j) => OtherEventsKeepJobs(s, e, capacity); FetchKeepsChannels(s, j, capacity);
    case _ => OtherEventsKeepJobs(s, e, capacity); OtherKeepsChannels(s, e, capacity);
  }

  lemma {:induction false} RunKeepsInv(s: State, events: seq<Event>, s': State, capacity: nat)
    requires Inv(s) && Runs(s, events, s', capacity)
    ensures Inv(s')
    decreases |events|
  {
    hide Inv, Enabled, Apply;
    if events != [] {
      StepKeepsInv(s, events[0], capacity);
      RunKeepsInv(Apply(s, events[0], capacity), events[1..], s', capacity);
    }
  }

  lemma ReachableInv(s: State, capacity: nat)
    requires Reachable(s, capacity)
    ensures Inv(s)
  {
    hide Inv;
    var start, events :| Initial(start) && Runs(start, events, s, capacity);
    InitialInv(start);
    RunKeepsInv(start, events, s, capacity);
  }

  // What the invariant means

  ghost function Below(n: nat): (r: set<nat>)
    ensures |r| == n && forall x: nat :: x in r <==> x < n
  {
    if n == 0 then {} else Below(n - 1) + {n - 1}
  }

  lemma DistinctBelow(q: seq<nat>, n: nat, missing: nat)
    requires Distinct(q) && missing < n && missing !in q && forall x | x in q :: x < n
    ensures |q| < n
  {
    var used := set x | x in q;
    DistinctCount(q);
    SubsetSize(used, Below(n) - {missing});
  }

  ghost function RunningJobs(workers: seq<Worker>): set<Job>
  {
    set w | w in workers && w.Running? :: w.job
  }

  lemma {:induction false} RunningCount(workers: seq<Worker>)
    ensures |RunningJobs(workers)| <= |workers|
  {
    if workers != [] {
      var init, last := workers[..|workers| - 1], workers[|workers| - 1];
      RunningCount(init);
      assert workers == init + [last];
      assert RunningJobs(workers) == RunningJobs(init) + (if last.Running? then {last.job} else {});
    }
  }

  lemma {:induction false} RunKeepsWorkers(s: State, events: seq<Event>, s': State, capacity: nat)
    requires Runs(s, events, s', capacity)
    ensures |s'.workers| == |s.workers|
    decreases |events|
  {
    if events != [] {
      RunKeepsWorkers(Apply(s, events[0], capacity), events[1..], s', capacity);
    }
  }

  /** At no time do more jobs run than workers were started; `running` are the jobs that run. */
  lemma AtMostAllRun(start: State, events: seq<Event>, s: State, capacity: nat) returns (running: set<Job>)
    requires Initial(start) && Runs(start, events, s, capacity)
    ensures forall j: Job :: j in running <==> IsRunning(s, j)
    ensures |running| <= |start.workers|
  {
    running := RunningJobs(s.workers);
    RunningCount(s.workers);
    RunKeepsWorkers(start, events, s, capacity);
    forall j: Job ensures j in running <==> IsRunning(s, j) {
      if IsRunning(s, j) {
        assert Running(j) in s.workers;
      }
    }
  }

  /** Registration finds room in the pool, and a goroutine that holds a channel finds its worker at the select. */
  lemma InvNeverBlocks(s: State, capacity: nat)
    requires Inv(s)
    ensures forall w: nat | w < |s.workers| && s.workers[w] == Registering :: Enabled(s, Register(w), capacity)
    ensures forall j | j in s.carriers && s.carriers[j].Holding? :: Enabled(s, HandOver(j), capacity)
  {
    forall w: nat | w < |s.workers| && s.workers[w] == Registering ensures Enabled(s, Register(w), capacity) {
      DistinctBelow(s.pool, |s.workers|, w);
    }
    forall j | j in s.carriers && s.carriers[j].Holding? ensures Enabled(s, HandOver(j), capacity) {
      assert Held(s, s.carriers[j].worker, j);
    }
  }

  /** In every reachable state a worker that wants to register finds room in the pool, a goroutine that holds a channel
      finds its worker at the select, and each accepted job is in exactly one of the four places. */
  lemma ChannelsNeverBlock(s: State, capacity: nat)
    requires Reachable(s, capacity)
    ensures forall w: nat | w < |s.workers| && s.workers[w] == Registering :: Enabled(s, Register(w), capacity)
    ensures forall j | j in s.carriers && s.carriers[j].Holding? :: Enabled(s, HandOver(j), capacity)
    ensures forall j: Job :: PlacedOnce(s, j)
  {
    ReachableInv(s, capacity);
    InvNeverBlocks(s, capacity);
  }

  /** In every reachable state the queue is the ascending run of job numbers that ends with the last one accepted; all
      earlier ones have left it, so jobs leave in the order in which they were accepted. */
  lemma QueueIsInOrder(s: State, capacity: nat, j: Job)
    requires Reachable(s, capacity)
    ensures InOrder(s) && (InQueue(s, j) <==> s.next - |s.queue| <= j < s.next)
  {
    ReachableInv(s, capacity);
    if s.next - |s.queue| <= j < s.next {
      assert s.queue[j - (s.next - |s.queue|)] == j;
    }
  }

  // Progress

  /** Steps that carry accepted jobs on. */
  predicate IsWork(e: Event) { e.Dispatch? || e.Register? || e.Fetch? || e.HandOver? || e.Finish? }

  lemma NextStep(s: State, capacity: nat, j: Job) returns (e: Event)
    requires Inv(s) && |s.workers| > 0 && s.loop == OnQueue && j < s.next && j !in s.done
    ensures Enabled(s, e, capacity) && IsWork(e)
  {
    InvNeverBlocks(s, capacity);
    assert PlacedOnce(s, j);
    if InQueue(s, j) {
      e := Dispatch;
    } else if IsRunning(s, j) {
      var w :| 0 <= w < |s.workers| && s.workers[w] == Running(j);
      e := Finish(w);
    } else if s.carriers[j].Holding? {
      e := HandOver(j);
    } else if s.pool != [] {
      e := Fetch(j);
    } else {
      match s.workers[0]
      case Registering => e := Register(0);
      case Running(_) => e := Finish(0);
      case Waiting => var k :| Held(s, 0, k); e := HandOver(k);
    }
  }

  /** With at least one worker and a dispatcher on the queue, as long as some accepted job is not done some step towards
      its completion can happen (a handler that runs is assumed to return). */
  lemma WorkIsNeverStuck(s: State, capacity: nat, j: Job) returns (e: Event)
    requires Reachable(s, capacity) && |s.workers| > 0 && s.loop == OnQueue && j < s.next && j !in s.done
    ensures Enabled(s, e, capacity) && IsWork(e)
  {
    ReachableInv(s, capacity);
    e := NextStep(s, capacity, j);
  }

  function Load(w: Worker): nat { match w case Registering => 1 case Waiting => 0 case Running(_) => 2 }

  function Loads(workers: seq<Worker>): nat
  {
    if workers == [] then 0 else Loads(workers[..|workers| - 1]) + Load(workers[|workers| - 1])
  }

  lemma {:induction false} LoadsUpdate(workers: seq<Worker>, w: nat, x: Worker)
    requires w < |workers|
    ensures Loads(workers[w := x]) + Load(workers[w]) == Loads(workers) + Load(x)
    decreases |workers|
  {
    var n := |workers| - 1;
    if w < n {
      assert workers[w := x][..n] == workers[..n][w := x];
      LoadsUpdate(workers[..n], w, x);
    } else {
      assert workers[w := x][..n] == workers[..n];
    }
  }

  function Seekers(carriers: map<Job, Carrier>): set<Job> { set j | j in carriers && carriers[j] == Seeking }

  /** The steps that the jobs accepted so far can still take. */
  function Remaining(s: State): nat
  {
    5 * |s.queue| + 3 * |s.carriers| + |Seekers(s.carriers)| + Loads(s.workers)
  }

  lemma KeysUpdate(carriers: map<Job, Carrier>, j: Job, c: Carrier)
    ensures |carriers[j := c]| == |carriers| + Count(j !in carriers)
  {
    assert carriers[j := c].Keys == carriers.Keys + {j};
    assert |carriers[j := c]| == |carriers[j := c].Keys| && |carriers| == |carriers.Keys|;
  }

  lemma SeekersUpdate(carriers: map<Job, Carrier>, j: Job, c: Carrier)
    ensures |Seekers(carriers[j := c])| == |Seekers(carriers)| + Count(c == Seeking) - Count(j in Seekers(carriers))
  {
    var before, after := Seekers(carriers), Seekers(carriers[j := c]);
    if c == Seeking {
      assert after == before + {j};
    } else {
      assert after == before - {j};
    }
  }

  lemma CarriersWithout(carriers: map<Job, Carrier>, j: Job)
    requires j in carriers
    ensures |carriers - {j}| == |carriers| - 1
    ensures |Seekers(carriers - {j})| == |Seekers(carriers)| - Count(carriers[j] == Seeking)
  {
    var before, after := Seekers(carriers), Seekers(carriers - {j});
    assert after == before - {j};
    assert (carriers - {j}).Keys == carriers.Keys - {j};
    assert |carriers - {j}| == |(carriers - {j}).Keys| && |carriers| == |carriers.Keys|;
  }

  lemma NotSeeking(carriers: map<Job, Carrier>, j: Job)
    requires j !in carriers
    ensures j !in Seekers(carriers)
  {}

  lemma IsSeeking(carriers: map<Job, Carrier>, j: Job)
    requires j in carriers && carriers[j] == Seeking
    ensures j in Seekers(carriers)
  {}

  lemma CarrierProgress(s: State, e: Event, capacity: nat)
    requires Enabled(s, e, capacity) && (e.Dispatch? || e.Fetch?)
    requires e.Dispatch? ==> s.queue[0] !in s.carriers
    ensures Remaining(Apply(s, e, capacity)) == Remaining(s) - 1
  {
    hide Loads, Seekers;
    var j, c := if e.Dispatch? then s.queue[0] else e.job, if e.Dispatch? then Seeking else Holding(s.pool[0]);
    KeysUpdate(s.carriers, j, c);
    SeekersUpdate(s.carriers, j, c);
    if e.Dispatch? { NotSeeking(s.carriers, j); } else { IsSeeking(s.carriers, j); }
  }

  lemma WorkerProgress(s: State, e: Event, capacity: nat)
    requires Enabled(s, e, capacity) && (e.Register? || e.HandOver? || e.Finish?)
    ensures Remaining(Apply(s, e, capacity)) == Remaining(s) - 1
  {
    hide Loads, Seekers;
    match e
    case Register(w) => LoadsUpdate(s.workers, w, Waiting);
    case HandOver(j) =>
      CarriersWithout(s.carriers, j);
      LoadsUpdate(s.workers, s.carriers[j].worker, Running(j));
    case Finish(w) => LoadsUpdate(s.workers, w, Registering);
  }

  /** Every such step uses up one unit of a finite allowance; only accepting a job adds to it. So without new jobs the
      accepted ones are done after that many steps, in whatever order they are taken. */
  lemma WorkIsProgress(s: State, e: Event, capacity: nat)
    requires Inv(s) && Enabled(s, e, capacity) && IsWork(e)
    ensures Remaining(Apply(s, e, capacity)) == Remaining(s) - 1
  {
    if e.Dispatch? { assert PlacedOnce(s, s.queue[0]); assert InQueue(s, s.queue[0]); }
    hide Remaining, Inv, Apply;
    if e.Dispatch? || e.Fetch? {
      CarrierProgress(s, e, capacity);
    } else {
      WorkerProgress(s, e, capacity);
    }
  }

  /** A run that completes job j. */
  lemma {:induction false} Completes(s: State, capacity: nat, j: Job) returns (events: seq<Event>, s': State)
    requires Inv(s) && |s.workers| > 0 && s.loop == OnQueue && j < s.next
    ensures Runs(s, events, s', capacity) && j in s'.done
    decreases Remaining(s)
  {
    if j in s.done {
      events, s' := [], s;
    } else {
      var e := NextStep(s, capacity, j);
      WorkIsProgress(s, e, capacity);
      StepKeepsInv(s, e, capacity);
      hide Inv, Remaining;
      var rest;
      rest, s' := Completes(Apply(s, e, capacity), capacity, j);
      events := [e] + rest;
      assert events[1..] == rest;
    }
  }

  // The queue variable is read when the dispatcher first reaches its select, and it is assigned only after the
  // dispatcher has been started.

  /** A dispatcher that read the variable too early never takes a job: every accepted job stays queued for ever. */
  lemma {:induction false} NilDispatcherIsDead(s: State, events: seq<Event>, s': State, capacity: nat)
    requires Inv(s) && s.loop == OnNil && Runs(s, events, s', capacity)
    ensures s'.loop == OnNil && s.queue <= s'.queue && s'.done == {}
    decreases |events|
  {
    if events != [] {
      StepKeepsInv(s, events[0], capacity);
      hide Inv;
      NilDispatcherIsDead(Apply(s, events[0], capacity), events[1..], s', capacity);
    }
  }

  lemma Serves(s: State, capacity: nat, j: Job) returns (events: seq<Event>, s': State)
    requires Inv(s) && |s.workers| > 0 && j < s.next && s.loop != OnNil
    ensures Runs(s, events, s', capacity) && j in s'.done
  {
    if s.loop == OnQueue {
      events, s' := Completes(s, capacity, j);
    } else {
      StepKeepsInv(s, EnterLoop, capacity);
      var rest;
      rest, s' := Completes(Apply(s, EnterLoop, capacity), capacity, j);
      events := [EnterLoop] + rest;
      assert events[1..] == rest;
    }
  }

  /** Some continuation completes the job. */
  ghost predicate CanFinish(s: State, j: Job, capacity: nat)
  {
    exists events, s' :: Runs(s, events, s', capacity) && j in s'.done
  }

  /** With at least one worker an accepted job can be completed if and only if the dispatcher did not read the variable
      before it was assigned. */
  lemma ServesIffMadeFirst(s: State, capacity: nat, j: Job)
    requires Reachable(s, capacity) && |s.workers| > 0 && j < s.next
    ensures CanFinish(s, j, capacity) <==> s.loop != OnNil
  {
    ReachableInv(s, capacity);
    hide Runs;
    if s.loop == OnNil {
      forall events, s' | Runs(s, events, s', capacity) ensures j !in s'.done {
        NilDispatcherIsDead(s, events, s', capacity);
      }
    } else {
      var events, s' := Serves(s, capacity, j);
      assert CanFinish(s, j, capacity);
    }
  }

  /** Both orders are possible: with the unlucky one the very first job is never dispatched. */
  lemma UnluckyOrderIsReachable(start: State, capacity: nat)
    requires Initial(start) && capacity > 0
    ensures exists s :: Reachable(s, capacity) && s.loop == OnNil && s.made && InQueue(s, 0)
  {
    var s1 := Apply(start, EnterLoop, capacity);
    var s2 := Apply(s1, MakeQueue, capacity);
    var s3 := Apply(s2, Accept, capacity);
    var events := [EnterLoop, MakeQueue, Accept];
    assert events[1..] == [MakeQueue, Accept] && events[1..][1..] == [Accept] && events[1..][1..][1..] == [];
    assert Runs(s3, [], s3, capacity);
    assert Runs(s2, events[1..][1..], s3, capacity);
    assert Runs(s1, events[1..], s3, capacity);
    assert Runs(start, events, s3, capacity);
    assert Reachable(s3, capacity) && InQueue(s3, 0);
  }
}
