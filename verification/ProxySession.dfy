/** One proxied connection of the Go server: the goroutines and the channels that join them, as a state machine whose
    runs are all interleavings. The dialing side (the first-packet check, continued by the client reader), the remote
    writer, the remote reader with its inner goroutine, and the client writer each take one step at a time; socket
    outcomes and Go's choice between ready cases are part of the event. */
module ProxySession {

  type Bytes = seq<bv8>

  datatype Slot = Empty | Full(data: Bytes) {
    function Contents(): Bytes { if Empty? then [] else data }
  }

  /** checkFirst and, once it has succeeded, dealc2s: one runs strictly after the other. */
  datatype Feeder =
    | Reading
    | Dialing(data: Bytes)
    | FirstStart(data: Bytes)
    | SecondStart(data: Bytes)
    | Sending(data: Bytes)
    | Posting
    | Ended

  /** deals2r. The last two places remember whether a start signal came and whether the end token stopped it. */
  datatype Writer =
    | AwaitStart
    | Selecting
    | Writing(data: Bytes)
    | PostEnd(started: bool, stopped: bool)
    | Done(started: bool, stopped: bool)
  {
    predicate Over() { PostEnd? || Done? }
    predicate Started() { Selecting? || Writing? || (Over() && started) }
    predicate Stopped() { Over() && stopped }
  }

  /** dealr2s. The last two places remember the same, and whether the inner goroutine's error stopped it. */
  datatype Watcher =
    | AwaitStart
    | Watching
    | PostEnd(started: bool, stopped: bool)
    | Done(started: bool, stopped: bool)
  {
    predicate Over() { PostEnd? || Done? }
    predicate Started() { Watching? || (Over() && started) }
    predicate Stopped() { Over() && stopped }
  }

  /** the goroutine inside dealr2s */
  datatype Reader = NotRunning | ReadingRemote | Handing(data: Bytes) | Failing | Gone

  /** deals2c */
  datatype Returner = Selecting | Writing(data: Bytes) | PostEnd(stopped: bool) | Done(stopped: bool) {
    predicate Over() { PostEnd? || Done? }
    predicate Stopped() { Over() && stopped }
  }

  /** Tokens in the three end channels in use and in the error channel. */
  datatype Ends = Ends(s2r: nat, r2s: nat, s2c: nat, errors: nat)

  /** Bytes accepted from the client, written to the remote, read from the remote, returned to the client. */
  datatype History = History(accepted: Bytes, written: Bytes, received: Bytes, returned: Bytes)

  datatype State = State(
    feeder: Feeder, first: bool, dst: bool,
    s2r: Writer, r2s: Watcher, reader: Reader, s2c: Returner,
    chans2r: Slot, chans2c: Slot, ends: Ends, history: History)

  const END_CAPACITY := 2

  predicate Initial(s: State)
  {
    && s.feeder == Reading && s.first && !s.dst
    && s.s2r == Writer.AwaitStart && s.r2s == Watcher.AwaitStart && s.reader == NotRunning
    && s.s2c == Returner.Selecting
    && s.chans2r == Empty && s.chans2c == Empty && s.ends == Ends(0, 0, 0, 0) && s.history == History([], [], [], [])
  }

  // One step of one goroutine. A step can happen when its guard holds: channel sends need room, receives need a
  // value, and the unbuffered start channel needs its receiver at the select.

  datatype FeederMove =
    ReadPacket(data: Bytes) | ReadDns(resolved: bool) | ReadFails | Dial(ok: bool) | StartWriter | StartWatcher |
    Send | PostEnd

  predicate FeederCan(s: State, m: FeederMove)
  {
    match m
    case ReadPacket(_) => s.feeder.Reading?
    case ReadDns(_) => s.feeder.Reading? && s.first
    case ReadFails => s.feeder.Reading?
    case Dial(_) => s.feeder.Dialing?
    case StartWriter => (s.feeder.FirstStart? || s.feeder.SecondStart?) && s.s2r.AwaitStart?
    case StartWatcher => (s.feeder.FirstStart? || s.feeder.SecondStart?) && s.r2s.AwaitStart?
    case Send => s.feeder.Sending? && s.chans2r.Empty?
    case PostEnd => s.feeder.Posting? && s.ends.s2r < END_CAPACITY
  }

  function AfterStart(f: Feeder): Feeder
    requires f.FirstStart? || f.SecondStart?
  {
    if f.FirstStart? then SecondStart(f.data) else Sending(f.data)
  }

  function FeederStep(s: State, m: FeederMove): State
    requires FeederCan(s, m)
  {
    match m
    case ReadPacket(d) =>
      s.(feeder := if s.dst then Sending(d) else Dialing(d), history := s.history.(accepted := s.history.accepted + d))
    case ReadDns(resolved) => if resolved then s.(first := false) else s.(feeder := Posting)
    case ReadFails => s.(feeder := Posting)
    case Dial(ok) => if ok then s.(dst := true, feeder := FirstStart(s.feeder.data)) else s.(feeder := Posting)
    case StartWriter => s.(feeder := AfterStart(s.feeder), s2r := Writer.Selecting)
    case StartWatcher =>
      s.(feeder := AfterStart(s.feeder), r2s := Watching, reader := ReadingRemote)
    case Send => s.(chans2r := Full(s.feeder.data), feeder := Reading, first := false)
    case PostEnd => s.(ends := s.ends.(s2r := s.ends.s2r + 1), feeder := Ended)
  }

  datatype WriterMove = Stop | Take | Wrote | WriteFailed(sent: nat) | PostEnd

  predicate WriterCan(s: State, m: WriterMove)
  {
    match m
    case Stop => (s.s2r.AwaitStart? || s.s2r.Selecting?) && s.ends.s2r > 0
    case Take => s.s2r.Selecting? && s.chans2r.Full?
    case Wrote => s.s2r.Writing?
    case WriteFailed(sent) => s.s2r.Writing? && sent <= |s.s2r.data|
    case PostEnd => s.s2r.PostEnd? && s.ends.r2s < END_CAPACITY
  }

  function WriterStep(s: State, m: WriterMove): State
    requires WriterCan(s, m)
  {
    match m
    case Stop => s.(s2r := Writer.PostEnd(s.s2r.Started(), true), ends := s.ends.(s2r := s.ends.s2r - 1))
    case Take => s.(s2r := Writer.Writing(s.chans2r.data), chans2r := Empty)
    case Wrote => s.(s2r := Writer.Selecting, history := s.history.(written := s.history.written + s.s2r.data))
    case WriteFailed(sent) =>
      s.(s2r := Writer.PostEnd(true, false), history := s.history.(written := s.history.written + s.s2r.data[..sent]))
    case PostEnd => s.(s2r := Writer.Done(s.s2r.started, s.s2r.stopped), ends := s.ends.(r2s := s.ends.r2s + 1))
  }

  datatype WatcherMove = Stop | SeeError | PostEnd

  predicate WatcherCan(s: State, m: WatcherMove)
  {
    match m
    case Stop => (s.r2s.AwaitStart? || s.r2s.Watching?) && s.ends.r2s > 0
    case SeeError => s.r2s.Watching? && s.ends.errors > 0
    case PostEnd => s.r2s.PostEnd? && s.ends.s2c < END_CAPACITY
  }

  function WatcherStep(s: State, m: WatcherMove): State
    requires WatcherCan(s, m)
  {
    match m
    case Stop => s.(r2s := Watcher.PostEnd(s.r2s.Started(), true), ends := s.ends.(r2s := s.ends.r2s - 1))
    case SeeError => s.(r2s := Watcher.PostEnd(true, false), ends := s.ends.(errors := s.ends.errors - 1))
    case PostEnd => s.(r2s := Watcher.Done(s.r2s.started, s.r2s.stopped), ends := s.ends.(s2c := s.ends.s2c + 1))
  }

  datatype ReaderMove = Got(data: Bytes) | ReadFailed | Hand | PostError

  predicate ReaderCan(s: State, m: ReaderMove)
  {
    match m
    case Got(_) => s.reader.ReadingRemote?
    case ReadFailed => s.reader.ReadingRemote?
    case Hand => s.reader.Handing? && s.chans2c.Empty?
    case PostError => s.reader.Failing? && s.ends.errors < 1
  }

  function ReaderStep(s: State, m: ReaderMove): State
    requires ReaderCan(s, m)
  {
    match m
    case Got(d) => s.(reader := Handing(d), history := s.history.(received := s.history.received + d))
    case ReadFailed => s.(reader := Failing)
    case Hand => s.(reader := ReadingRemote, chans2c := Full(s.reader.data))
    case PostError => s.(reader := Gone, ends := s.ends.(errors := s.ends.errors + 1))
  }

  datatype ReturnerMove = Take | Returned | ReturnFailed | Stop | PostEnd

  predicate ReturnerCan(s: State, m: ReturnerMove)
  {
    match m
    case Take => s.s2c.Selecting? && s.chans2c.Full?
    case Returned => s.s2c.Writing?
    case ReturnFailed => s.s2c.Writing?
    case Stop => s.s2c.Selecting? && s.ends.s2c > 0
    case PostEnd => s.s2c.PostEnd? && s.ends.s2c < END_CAPACITY
  }

  function ReturnerStep(s: State, m: ReturnerMove): State
    requires ReturnerCan(s, m)
  {
    match m
    case Take => s.(s2c := Returner.Writing(s.chans2c.data), chans2c := Empty)
    case Returned => s.(s2c := Returner.Selecting, history := s.history.(returned := s.history.returned + s.s2c.data))
    case ReturnFailed => s.(s2c := Returner.PostEnd(false))
    case Stop => s.(s2c := Returner.PostEnd(true), ends := s.ends.(s2c := s.ends.s2c - 1))
    case PostEnd => s.(s2c := Returner.Done(s.s2c.stopped), ends := s.ends.(s2c := s.ends.s2c + 1))
  }

  datatype Event =
    | Feed(feed: FeederMove) | Write(write: WriterMove) | Watch(watch: WatcherMove) | Read(read: ReaderMove)
    | Return(ret: ReturnerMove)

  predicate Enabled(s: State, e: Event)
  {
    match e
    case Feed(m) => FeederCan(s, m)
    case Write(m) => WriterCan(s, m)
    case Watch(m) => WatcherCan(s, m)
    case Read(m) => ReaderCan(s, m)
    case Return(m) => ReturnerCan(s, m)
  }

  function Apply(s: State, e: Event): State
    requires Enabled(s, e)
  {
    match e
    case Feed(m) => FeederStep(s, m)
    case Write(m) => WriterStep(s, m)
    case Watch(m) => WatcherStep(s, m)
    case Read(m) => ReaderStep(s, m)
    case Return(m) => ReturnerStep(s, m)
  }

  /** The state after a sequence of events, when each is possible in turn. */
  ghost predicate Runs(s: State, events: seq<Event>, s': State)
    decreases |events|
  {
    if events == [] then s' == s
    else Enabled(s, events[0]) && Runs(Apply(s, events[0]), events[1..], s')
  }

  ghost predicate Reachable(s: State)
  {
    exists start, events :: Initial(start) && Runs(start, events, s)
  }

  function Count(b: bool): nat { if b then 1 else 0 }

  // What every step keeps

  /** Each end channel holds what was posted on it less what was consumed. */
  ghost predicate TokensBalance(s: State)
  {
    && s.ends.s2r + Count(s.s2r.Stopped()) == Count(s.feeder.Ended?)
    && s.ends.r2s + Count(s.r2s.Stopped()) == Count(s.s2r.Done?)
    && s.ends.s2c + Count(s.s2c.Stopped()) == Count(s.r2s.Done?) + Count(s.s2c.Done?)
    && s.ends.errors + Count(s.r2s.Over() && !s.r2s.stopped) == Count(s.reader.Gone?)
  }

  /** The two start signals: none before the dial has succeeded, one each to the writer and to the watcher. */
  ghost predicate StartsBalance(s: State)
  {
    && Count(s.s2r.Started()) + Count(s.r2s.Started()) ==
       (if !s.dst || s.feeder.FirstStart? then 0 else if s.feeder.SecondStart? then 1 else 2)
    && (s.reader.NotRunning? <==> !s.r2s.Started())
    && (s.s2r.Over() ==> s.s2r.started || s.s2r.stopped)
    && (s.r2s.Over() ==> s.r2s.started || s.r2s.stopped)
    && (!s.dst || s.feeder.FirstStart? || s.feeder.SecondStart? ==> s.chans2r.Empty? && !s.s2r.Writing?)
    && (s.feeder.SecondStart? && s.s2r.Over() ==> s.s2r.stopped)
  }

  /** Where the dialing side can be before and after the dial. */
  ghost predicate DialState(s: State)
  {
    && (s.feeder.FirstStart? || s.feeder.SecondStart? || s.feeder.Sending? ==> s.dst)
    && (s.feeder.Dialing? ==> !s.dst)
    && (s.first && s.dst ==> !s.feeder.Reading?)
    && (s.first && s.feeder.Sending? ==> s.chans2r.Empty?)
  }

  function Pending(f: Feeder): Bytes
  {
    match f
    case Dialing(d) => d
    case FirstStart(d) => d
    case SecondStart(d) => d
    case Sending(d) => d
    case _ => []
  }

  function InWriter(w: Writer): Bytes { if w.Writing? then w.data else [] }

  function InReader(r: Reader): Bytes { if r.Handing? then r.data else [] }

  function InReturner(r: Returner): Bytes { if r.Writing? then r.data else [] }

  /** Client to remote, oldest byte first: written, in the writer's hand, in the channel, in the feeder's hand. */
  function Upstream(s: State): Bytes
  {
    s.history.written + InWriter(s.s2r) + s.chans2r.Contents() + Pending(s.feeder)
  }

  function Downstream(s: State): Bytes
  {
    s.history.returned + InReturner(s.s2c) + s.chans2c.Contents() + InReader(s.reader)
  }

  ghost predicate UpstreamInOrder(s: State)
  {
    && s.history.written <= s.history.accepted
    && (!s.s2r.Over() ==>
          && Upstream(s) <= s.history.accepted
          && (!s.feeder.Posting? && !s.feeder.Ended? ==> Upstream(s) == s.history.accepted))
  }

  ghost predicate DownstreamInOrder(s: State)
  {
    && s.history.returned <= s.history.received
    && (!s.s2c.Over() ==> Downstream(s) == s.history.received)
  }

  ghost predicate Inv(s: State)
  {
    TokensBalance(s) && StartsBalance(s) && DialState(s) && UpstreamInOrder(s) && DownstreamInOrder(s)
  }

  lemma InitialInv(s: State)
    requires Initial(s)
    ensures Inv(s)
  {
    assert Upstream(s) == [] && Downstream(s) == [];
  }

  // Each goroutine keeps the invariant.

  lemma FeederKeeps(s: State, m: FeederMove)
    requires Inv(s) && FeederCan(s, m)
    ensures Inv(FeederStep(s, m))
  {
    var s' := FeederStep(s, m);
    assert Downstream(s') == Downstream(s);
    match m
    case ReadPacket(d) => assert Upstream(s') == Upstream(s) + d;
    case Dial(ok) => assert if ok then Upstream(s') == Upstream(s) else Upstream(s) == Upstream(s') + s.feeder.data;
    case _ => assert Upstream(s') == Upstream(s);
  }

  lemma WriterKeeps(s: State, m: WriterMove)
    requires Inv(s) && WriterCan(s, m)
    ensures Inv(WriterStep(s, m))
  {
    var s' := WriterStep(s, m);
    assert Downstream(s') == Downstream(s);
    match m
    case Take => assert Upstream(s') == Upstream(s);
    case Wrote => assert Upstream(s') == Upstream(s);
    case WriteFailed(_) => assert s'.history.written <= s.history.written + s.s2r.data <= Upstream(s);
    case _ =>
  }

  lemma WatcherKeeps(s: State, m: WatcherMove)
    requires Inv(s) && WatcherCan(s, m)
    ensures Inv(WatcherStep(s, m))
  {
    var s' := WatcherStep(s, m);
    assert Upstream(s') == Upstream(s) && Downstream(s') == Downstream(s);
  }

  lemma ReaderKeeps(s: State, m: ReaderMove)
    requires Inv(s) && ReaderCan(s, m)
    ensures Inv(ReaderStep(s, m))
  {
    var s' := ReaderStep(s, m);
    assert Upstream(s') == Upstream(s);
    match m
    case Got(d) => assert Downstream(s') == Downstream(s) + d;
    case _ => assert Downstream(s') == Downstream(s);
  }

  lemma ReturnerKeeps(s: State, m: ReturnerMove)
    requires Inv(s) && ReturnerCan(s, m)
    ensures Inv(ReturnerStep(s, m))
  {
    var s' := ReturnerStep(s, m);
    assert Upstream(s') == Upstream(s);
    match m
    case Take => assert Downstream(s') == Downstream(s);
    case Returned => assert Downstream(s') == Downstream(s);
    case _ =>
  }

  lemma StepKeepsInv(s: State, e: Event)
    requires Inv(s) && Enabled(s, e)
    ensures Inv(Apply(s, e))
  {
    hide Inv, FeederCan, FeederStep, WriterCan, WriterStep, WatcherCan, WatcherStep, ReaderCan, ReaderStep,
      ReturnerCan, ReturnerStep;
    match e
    case Feed(m) => FeederKeeps(s, m);
    case Write(m) => WriterKeeps(s, m);
    case Watch(m) => WatcherKeeps(s, m);
    case Read(m) => ReaderKeeps(s, m);
    case Return(m) => ReturnerKeeps(s, m);
  }

  lemma {:induction false} RunKeepsInv(s: State, events: seq<Event>, s': State)
    requires Inv(s) && Runs(s, events, s')
    ensures Inv(s')
    decreases |events|
  {
    hide Inv, Enabled, Apply;
    if events != [] {
      StepKeepsInv(s, events[0]);
      RunKeepsInv(Apply(s, events[0]), events[1..], s');
    }
  }

  lemma ReachableInv(s: State)
    requires Reachable(s)
    ensures Inv(s)
  {
    hide Inv;
    var start, events :| Initial(start) && Runs(start, events, s);
    InitialInv(start);
    RunKeepsInv(start, events, s);
  }

  // What the invariant means

  /** In every reachable state: a worker that touches the remote socket finds it connected; posting an end token never
      has to wait; a dialer with a start signal to give has a receiver waiting; the first packet's hand-over never
      waits. */
  lemma NoBlockingOutsideData(s: State)
    requires Reachable(s)
    ensures s.s2r.Writing? || s.reader.ReadingRemote? ==> s.dst
    ensures s.ends.s2r <= 1 && s.ends.r2s <= 1 && s.ends.s2c <= END_CAPACITY && s.ends.errors <= 1
    ensures s.feeder.Posting? ==> Enabled(s, Feed(FeederMove.PostEnd))
    ensures s.s2r.PostEnd? ==> Enabled(s, Write(WriterMove.PostEnd))
    ensures s.r2s.PostEnd? ==> Enabled(s, Watch(WatcherMove.PostEnd))
    ensures s.s2c.PostEnd? ==> Enabled(s, Return(ReturnerMove.PostEnd))
    ensures s.reader.Failing? ==> Enabled(s, Read(PostError))
    ensures s.feeder.FirstStart? ==> Enabled(s, Feed(StartWriter)) && Enabled(s, Feed(StartWatcher))
    ensures s.feeder.SecondStart? ==> Enabled(s, Feed(StartWriter)) != Enabled(s, Feed(StartWatcher))
    ensures s.feeder.Sending? && s.first ==> Enabled(s, Feed(Send))
  {
    ReachableInv(s);
  }

  /** In every reachable state the bytes written to either side are an initial segment of the bytes taken from the
      other. */
  lemma DeliveredInOrder(s: State)
    requires Reachable(s)
    ensures s.history.written <= s.history.accepted && s.history.returned <= s.history.received
  {
    ReachableInv(s);
  }

  // Shutdown

  /** The end token has been posted on chans2rEnd. */
  predicate Ending(s: State) { s.feeder.Ended? }

  predicate Finished(s: State) { s.s2r.Done? && s.r2s.Done? && s.s2c.Done? }

  /** From the moment the end token is posted, as long as one of the three workers is unfinished, some unfinished worker
      can take a step (a socket call that has been made is assumed to return): the cascade never deadlocks. */
  lemma ShutdownNeverDeadlocks(s: State) returns (e: Event)
    requires Reachable(s) && Ending(s) && !Finished(s)
    ensures Enabled(s, e)
    ensures (e.Write? && !s.s2r.Done?) || (e.Watch? && !s.r2s.Done?) || (e.Return? && !s.s2c.Done?)
  {
    ReachableInv(s);
    if !s.s2r.Done? {
      e := match s.s2r case Writing(_) => Write(Wrote) case PostEnd(_, _) => Write(WriterMove.PostEnd)
           case _ => Write(WriterMove.Stop);
    } else if !s.r2s.Done? {
      e := if s.r2s.PostEnd? then Watch(WatcherMove.PostEnd) else Watch(WatcherMove.Stop);
    } else {
      e := match s.s2c case Writing(_) => Return(Returned) case PostEnd(_) => Return(ReturnerMove.PostEnd)
           case _ => Return(ReturnerMove.Stop);
    }
  }

  /** Steps the writer and the watcher can still take once the token is posted. */
  function Remaining(s: State): nat
  {
    (match s.s2r
     case AwaitStart => 2
     case Selecting => 2 + (if s.chans2r.Full? then 2 else 0)
     case Writing(_) => 3 + (if s.chans2r.Full? then 2 else 0)
     case PostEnd(_, _) => 1
     case Done(_, _) => 0) +
    (match s.r2s case AwaitStart => 2 case Watching => 2 case PostEnd(_, _) => 1 case Done(_, _) => 0)
  }

  /** After the token is posted every step of the writer or the watcher uses up part of a bounded allowance that no
      other goroutine can refill, so both finish after at most seven steps of their own. */
  lemma ShutdownIsBounded(s: State, e: Event)
    requires Ending(s) && Enabled(s, e)
    ensures Ending(Apply(s, e)) && Remaining(s) <= 7
    ensures if e.Write? || e.Watch? then Remaining(Apply(s, e)) < Remaining(s)
            else Remaining(Apply(s, e)) <= Remaining(s)
  {
    match e
    case Write(m) => match m { case Stop => case Take => case Wrote => case WriteFailed(_) => case PostEnd => }
    case Watch(m) => match m { case Stop => case SeeError => case PostEnd => }
    case Read(m) => match m { case Got(_) => case ReadFailed => case Hand => case PostError => }
    case Return(m) =>
  }

  // The client reader can be left behind

  /** The client reader holds a packet, the channel is full, and the remote writer will never empty it. */
  predicate Stranded(s: State)
  {
    s.feeder.Sending? && s.chans2r.Full? && s.s2r.Over()
  }

  lemma StrandedStep(s: State, e: Event)
    requires Stranded(s) && Enabled(s, e)
    ensures Stranded(Apply(s, e)) && Apply(s, e).feeder == s.feeder
  {
    match e
    case Feed(m) =>
    case Write(m) =>
    case Watch(m) =>
    case Read(m) =>
    case Return(m) =>
  }

  lemma {:induction false} StrandedForever(s: State, events: seq<Event>, s': State)
    requires Stranded(s) && Runs(s, events, s')
    ensures Stranded(s') && s'.feeder == s.feeder
    decreases |events|
  {
    hide Apply, Enabled;
    if events != [] {
      StrandedStep(s, events[0]);
      StrandedForever(Apply(s, events[0]), events[1..], s');
    }
  }

  lemma OneStep(s: State, a: Event)
    requires Enabled(s, a)
    ensures Runs(s, [a], Apply(s, a))
  {
    hide Enabled, Apply;
    assert Runs(Apply(s, a), [], Apply(s, a)) && [a][1..] == [];
  }

  lemma TwoSteps(s: State, a: Event, b: Event)
    requires Enabled(s, a) && Enabled(Apply(s, a), b)
    ensures Runs(s, [a, b], Apply(Apply(s, a), b))
  {
    hide Enabled, Apply;
    OneStep(Apply(s, a), b);
    assert [a, b][1..] == [b];
  }

  lemma ThreeSteps(s: State, a: Event, b: Event, c: Event)
    requires Enabled(s, a) && Enabled(Apply(s, a), b) && Enabled(Apply(Apply(s, a), b), c)
    ensures Runs(s, [a, b, c], Apply(Apply(Apply(s, a), b), c))
  {
    hide Enabled, Apply;
    TwoSteps(Apply(s, a), b, c);
    assert [a, b, c][1..] == [b, c];
  }

  lemma HandOver(s: State) returns (events: seq<Event>, s': State)
    requires Inv(s) && s.feeder.Sending? && !Stranded(s)
    ensures Runs(s, events, s') && s'.feeder.Reading?
  {
    hide Runs;
    var take := Write(WriterMove.Take);
    if s.chans2r.Empty? {
      OneStep(s, Feed(Send));
      events, s' := [Feed(Send)], Apply(s, Feed(Send));
    } else if s.s2r.Selecting? {
      TwoSteps(s, take, Feed(Send));
      events, s' := [take, Feed(Send)], Apply(Apply(s, take), Feed(Send));
    } else {
      ThreeSteps(s, Write(Wrote), take, Feed(Send));
      events, s' := [Write(Wrote), take, Feed(Send)], Apply(Apply(Apply(s, Write(Wrote)), take), Feed(Send));
    }
  }

  /** In some continuation the client reader goes back to reading. */
  ghost predicate CanHandOver(s: State) { exists events, s' :: Runs(s, events, s') && s'.feeder.Reading? }

  /** A client reader that holds a packet can still hand it over in some continuation exactly when it is not
      stranded. */
  lemma HandsOverUnlessStranded(s: State, d: Bytes)
    requires Reachable(s) && s.feeder == Sending(d)
    ensures CanHandOver(s) <==> !Stranded(s)
  {
    ReachableInv(s);
    if Stranded(s) {
      forall events, s' | Runs(s, events, s') ensures !s'.feeder.Reading? { StrandedForever(s, events, s'); }
    } else {
      var events, s' := HandOver(s);
      assert CanHandOver(s);
    }
  }

  // So can the inner remote reader

  /** The remote reader holds data, the channel to the client is full, and the client writer will never empty it. */
  predicate ReaderStranded(s: State)
  {
    s.reader.Handing? && s.chans2c.Full? && s.s2c.Over()
  }

  lemma ReaderStrandedStep(s: State, e: Event)
    requires ReaderStranded(s) && !s.r2s.AwaitStart? && Enabled(s, e)
    ensures ReaderStranded(Apply(s, e)) && !Apply(s, e).r2s.AwaitStart? && Apply(s, e).reader == s.reader
  {
    match e
    case Feed(m) =>
    case Write(m) =>
    case Watch(m) =>
    case Read(m) =>
    case Return(m) =>
  }

  lemma {:induction false} ReaderStrandedForever(s: State, events: seq<Event>, s': State)
    requires ReaderStranded(s) && !s.r2s.AwaitStart? && Runs(s, events, s')
    ensures ReaderStranded(s') && s'.reader == s.reader
    decreases |events|
  {
    hide Apply, Enabled;
    if events != [] {
      ReaderStrandedStep(s, events[0]);
      ReaderStrandedForever(Apply(s, events[0]), events[1..], s');
    }
  }

  lemma ReaderHandOver(s: State) returns (events: seq<Event>, s': State)
    requires Inv(s) && s.reader.Handing? && !ReaderStranded(s)
    ensures Runs(s, events, s') && s'.reader.ReadingRemote?
  {
    hide Runs;
    var take := Return(ReturnerMove.Take);
    if s.chans2c.Empty? {
      OneStep(s, Read(Hand));
      events, s' := [Read(Hand)], Apply(s, Read(Hand));
    } else if s.s2c.Selecting? {
      TwoSteps(s, take, Read(Hand));
      events, s' := [take, Read(Hand)], Apply(Apply(s, take), Read(Hand));
    } else {
      ThreeSteps(s, Return(Returned), take, Read(Hand));
      events, s' := [Return(Returned), take, Read(Hand)], Apply(Apply(Apply(s, Return(Returned)), take), Read(Hand));
    }
  }

  ghost predicate ReaderCanHandOver(s: State) { exists events, s' :: Runs(s, events, s') && s'.reader.ReadingRemote? }

  /** A remote reader that holds data can still hand it over in some continuation exactly when it is not stranded. */
  lemma ReaderHandsOverUnlessStranded(s: State, d: Bytes)
    requires Reachable(s) && s.reader == Handing(d)
    ensures ReaderCanHandOver(s) <==> !ReaderStranded(s)
  {
    ReachableInv(s);
    if ReaderStranded(s) {
      forall events, s' | Runs(s, events, s') ensures !s'.reader.ReadingRemote? {
        ReaderStrandedForever(s, events, s');
      }
    } else {
      var events, s' := ReaderHandOver(s);
      assert ReaderCanHandOver(s);
    }
  }

  lemma {:induction false} RunsThenStep(s: State, events: seq<Event>, s': State, e: Event)
    requires Runs(s, events, s') && Enabled(s', e)
    ensures Runs(s, events + [e], Apply(s', e))
    decreases |events|
  {
    hide Enabled, Apply;
    if events == [] {
      assert Runs(Apply(s', e), [], Apply(s', e));
    } else {
      RunsThenStep(Apply(s, events[0]), events[1..], s', e);
      assert (events + [e])[1..] == events[1..] + [e];
    }
  }

  lemma ReachableStep(s: State, e: Event)
    requires Reachable(s) && Enabled(s, e)
    ensures Reachable(Apply(s, e))
  {
    hide Enabled, Apply, Initial;
    var start, events :| Initial(start) && Runs(start, events, s);
    RunsThenStep(start, events, s, e);
    assert Initial(start) && Runs(start, events + [e], Apply(s, e));
  }

  lemma FirstPacketSent(p: Bytes) returns (s: State)
    ensures Reachable(s) && s.dst && s.feeder == Reading && s.chans2r == Full(p) && s.s2r == Writer.Selecting
    ensures s.reader == ReadingRemote && s.chans2c == Empty && s.s2c == Returner.Selecting
  {
    s := State(Reading, true, false, Writer.AwaitStart, Watcher.AwaitStart, NotRunning, Returner.Selecting,
               Empty, Empty, Ends(0, 0, 0, 0), History([], [], [], []));
    assert Initial(s) && Runs(s, [], s);
    hide Reachable, Runs;
    ReachableStep(s, Feed(ReadPacket(p)));
    s := FeederStep(s, ReadPacket(p));
    ReachableStep(s, Feed(Dial(true)));
    s := FeederStep(s, Dial(true));
    ReachableStep(s, Feed(StartWriter));
    s := FeederStep(s, StartWriter);
    ReachableStep(s, Feed(StartWatcher));
    s := FeederStep(s, StartWatcher);
    ReachableStep(s, Feed(Send));
    s := FeederStep(s, Send);
  }

  /** It does happen: a failed write to the remote with two more packets behind it. */
  lemma StrandingIsReachable(p: Bytes) returns (s: State)
    ensures Reachable(s) && Stranded(s)
  {
    hide Reachable;
    s := FirstPacketSent(p);
    ReachableStep(s, Write(WriterMove.Take));
    s := WriterStep(s, WriterMove.Take);
    ReachableStep(s, Feed(ReadPacket(p)));
    s := FeederStep(s, ReadPacket(p));
    ReachableStep(s, Feed(Send));
    s := FeederStep(s, Send);
    ReachableStep(s, Write(WriteFailed(0)));
    s := WriterStep(s, WriteFailed(0));
    ReachableStep(s, Feed(ReadPacket(p)));
    s := FeederStep(s, ReadPacket(p));
  }

  lemma ReaderFills(s0: State, p: Bytes) returns (s: State)
    requires Reachable(s0) && s0.reader.ReadingRemote? && s0.chans2c.Empty? && s0.s2c.Writing?
    ensures Reachable(s) && s.reader == Handing(p) && s.chans2c == Full(p) && s.s2c.Writing?
  {
    hide Reachable;
    s := s0;
    ReachableStep(s, Read(Got(p)));
    s := ReaderStep(s, Got(p));
    ReachableStep(s, Read(Hand));
    s := ReaderStep(s, Hand);
    ReachableStep(s, Read(Got(p)));
    s := ReaderStep(s, Got(p));
  }

  /** And for the remote reader: a failed write to the client with two more pieces of data behind it. */
  lemma ReaderStrandingIsReachable(p: Bytes) returns (s: State)
    ensures Reachable(s) && ReaderStranded(s)
  {
    hide Reachable;
    s := FirstPacketSent(p);
    ReachableStep(s, Read(Got(p)));
    s := ReaderStep(s, Got(p));
    ReachableStep(s, Read(Hand));
    s := ReaderStep(s, Hand);
    ReachableStep(s, Return(ReturnerMove.Take));
    s := ReturnerStep(s, ReturnerMove.Take);
    s := ReaderFills(s, p);
    ReachableStep(s, Return(ReturnFailed));
    s := ReturnerStep(s, ReturnFailed);
  }

  // What starts the shutdown, and that it ends

  datatype Party = ClientSide | RemoteWriter | RemoteWatcher | RemoteReader | ClientWriter

  /** A party has given up. */
  predicate IsOver(s: State, p: Party)
  {
    match p
    case ClientSide => s.feeder.Posting? || s.feeder.Ended?
    case RemoteWriter => s.s2r.Over()
    case RemoteWatcher => s.r2s.Over()
    case RemoteReader => s.reader.Failing? || s.reader.Gone?
    case ClientWriter => s.s2c.Over()
  }

  /** The events that make it do so: a failed read, resolution or dial; a failed write; a token; the reader's error. */
  predicate IsEnd(e: Event, p: Party)
  {
    match p
    case ClientSide => e == Feed(ReadFails) || e == Feed(Dial(false)) || e == Feed(ReadDns(false))
    case RemoteWriter => e == Write(WriterMove.Stop) || (e.Write? && e.write.WriteFailed?)
    case RemoteWatcher => e == Watch(WatcherMove.Stop) || e == Watch(SeeError)
    case RemoteReader => e == Read(ReadFailed)
    case ClientWriter => e == Return(ReturnerMove.Stop) || e == Return(ReturnFailed)
  }

  lemma FeedOver(s: State, m: FeederMove, p: Party)
    requires FeederCan(s, m) && (s.r2s.AwaitStart? ==> s.reader.NotRunning?)
    ensures IsOver(FeederStep(s, m), p) <==> IsOver(s, p) || IsEnd(Feed(m), p)
  {}

  lemma WriteOver(s: State, m: WriterMove, p: Party)
    requires WriterCan(s, m)
    ensures IsOver(WriterStep(s, m), p) <==> IsOver(s, p) || IsEnd(Write(m), p)
  {}

  lemma WatchOver(s: State, m: WatcherMove, p: Party)
    requires WatcherCan(s, m)
    ensures IsOver(WatcherStep(s, m), p) <==> IsOver(s, p) || IsEnd(Watch(m), p)
  {}

  lemma ReadOver(s: State, m: ReaderMove, p: Party)
    requires ReaderCan(s, m)
    ensures IsOver(ReaderStep(s, m), p) <==> IsOver(s, p) || IsEnd(Read(m), p)
  {}

  lemma ReturnOver(s: State, m: ReturnerMove, p: Party)
    requires ReturnerCan(s, m)
    ensures IsOver(ReturnerStep(s, m), p) <==> IsOver(s, p) || IsEnd(Return(m), p)
  {}

  lemma StepOver(s: State, e: Event, p: Party)
    requires Inv(s) && Enabled(s, e)
    ensures IsOver(Apply(s, e), p) <==> IsOver(s, p) || IsEnd(e, p)
  {
    assert s.r2s.AwaitStart? ==> s.reader.NotRunning?;
    hide Inv, IsOver, IsEnd, FeederCan, FeederStep, WriterCan, WriterStep, WatcherCan, WatcherStep, ReaderCan,
      ReaderStep, ReturnerCan, ReturnerStep;
    match e
    case Feed(m) => FeedOver(s, m, p);
    case Write(m) => WriteOver(s, m, p);
    case Watch(m) => WatchOver(s, m, p);
    case Read(m) => ReadOver(s, m, p);
    case Return(m) => ReturnOver(s, m, p);
  }

  lemma {:induction false} RunOver(s: State, events: seq<Event>, s': State, p: Party)
    requires Inv(s) && Runs(s, events, s')
    ensures IsOver(s', p) <==> IsOver(s, p) || exists e | e in events :: IsEnd(e, p)
    decreases |events|
  {
    hide Inv, Enabled, Apply, IsOver, IsEnd;
    if events != [] {
      var e, rest := events[0], events[1..];
      StepOver(s, e, p);
      StepKeepsInv(s, e);
      RunOver(Apply(s, e), rest, s', p);
      assert events == [e] + rest;
    }
  }

  /** Over every run: a party has given up if and only if one of its own endings happened. */
  lemma OverExactlyWhen(start: State, events: seq<Event>, s: State, p: Party)
    requires Initial(start) && Runs(start, events, s)
    ensures IsOver(s, p) <==> exists e | e in events :: IsEnd(e, p)
  {
    InitialInv(start);
    RunOver(start, events, s, p);
  }

  predicate UsesFirst(e: Event) { e == Feed(ReadDns(true)) || e == Feed(Send) }

  lemma StepFirst(s: State, e: Event)
    requires Enabled(s, e)
    ensures Apply(s, e).first <==> s.first && !UsesFirst(e)
  {
    match e
    case Feed(m) =>
    case Write(m) =>
    case Watch(m) =>
    case Read(m) =>
    case Return(m) =>
  }

  lemma {:induction false} RunFirst(s: State, events: seq<Event>, s': State)
    requires Runs(s, events, s')
    ensures s'.first <==> s.first && forall e | e in events :: !UsesFirst(e)
    decreases |events|
  {
    hide Apply, Enabled, UsesFirst;
    if events != [] {
      StepFirst(s, events[0]);
      RunFirst(Apply(s, events[0]), events[1..], s');
      assert events == [events[0]] + events[1..];
    }
  }

  /** A name query is answered as such only before anything else has been answered or sent on. */
  lemma NameQueryComesFirst(start: State, events: seq<Event>, s: State, resolved: bool)
    requires Initial(start) && Runs(start, events, s)
    ensures Enabled(s, Feed(ReadDns(resolved))) ==> Feed(ReadDns(true)) !in events && Feed(Send) !in events
    ensures s.first <==> Feed(ReadDns(true)) !in events && Feed(Send) !in events
  {
    RunFirst(start, events, s);
  }

  /** The bytes that events bring from the client, and from the remote side. */
  function FromClient(events: seq<Event>): Bytes
  {
    if events == [] then []
    else
      var e := events[0];
      (if e.Feed? && e.feed.ReadPacket? then e.feed.data else []) + FromClient(events[1..])
  }

  function FromRemote(events: seq<Event>): Bytes
  {
    if events == [] then []
    else
      var e := events[0];
      (if e.Read? && e.read.Got? then e.read.data else []) + FromRemote(events[1..])
  }

  lemma StepBrings(s: State, e: Event)
    requires Enabled(s, e)
    ensures Apply(s, e).history.accepted ==
            s.history.accepted + (if e.Feed? && e.feed.ReadPacket? then e.feed.data else [])
    ensures Apply(s, e).history.received ==
            s.history.received + (if e.Read? && e.read.Got? then e.read.data else [])
  {
    match e
    case Feed(m) =>
    case Write(m) =>
    case Watch(m) =>
    case Read(m) =>
    case Return(m) =>
  }

  lemma {:induction false} RunBrings(s: State, events: seq<Event>, s': State)
    requires Runs(s, events, s')
    ensures s'.history.accepted == s.history.accepted + FromClient(events)
    ensures s'.history.received == s.history.received + FromRemote(events)
    decreases |events|
  {
    if events != [] {
      var e := events[0];
      StepBrings(s, e);
      hide Apply, Enabled;
      RunBrings(Apply(s, e), events[1..], s');
    }
  }

  /** What a write adds: the remote has the next bytes of the client, those of the whole packet, or as many as were sent
      before the write failed. */
  lemma WriteAdds(s: State, sent: nat)
    requires Reachable(s) && s.s2r.Writing? && sent <= |s.s2r.data|
    ensures var n := |s.history.written|;
            && n + |s.s2r.data| <= |s.history.accepted|
            && Apply(s, Write(Wrote)).history.written == s.history.accepted[..n + |s.s2r.data|]
            && Apply(s, Write(WriteFailed(sent))).history.written == s.history.accepted[..n + sent]
  {
    ReachableInv(s);
    assert s.history.written + s.s2r.data <= Upstream(s) <= s.history.accepted;
  }

  /** In every run the bytes written to a side are an initial segment of the bytes the run brought from the other. */
  lemma DeliveredFromRun(start: State, events: seq<Event>, s: State)
    requires Initial(start) && Runs(start, events, s)
    ensures s.history.written <= FromClient(events) && s.history.returned <= FromRemote(events)
  {
    RunBrings(start, events, s);
    assert Reachable(s);
    DeliveredInOrder(s);
  }

  function ReturnerLeft(r: Returner): nat
  {
    match r case Writing(_) => 3 case Selecting => 2 case PostEnd(_) => 1 case Done(_) => 0
  }

  /** Steps left when nothing but the shutdown goes on. */
  function ShutdownLeft(s: State): nat { Count(s.feeder.Posting?) + Remaining(s) + ReturnerLeft(s.s2c) }

  function NextShutdown(s: State): Event
  {
    if s.feeder.Posting? && !s.s2r.Over() then Feed(FeederMove.PostEnd)
    else if !s.s2r.Done? then
      (if s.s2r.Writing? then Write(Wrote) else if s.s2r.PostEnd? then Write(WriterMove.PostEnd)
       else Write(WriterMove.Stop))
    else if !s.r2s.Done? then (if s.r2s.PostEnd? then Watch(WatcherMove.PostEnd) else Watch(WatcherMove.Stop))
    else if s.s2c.Writing? then Return(Returned)
    else if s.s2c.PostEnd? then Return(ReturnerMove.PostEnd)
    else Return(ReturnerMove.Stop)
  }

  predicate EndsAll(s: State) { IsOver(s, ClientSide) || IsOver(s, RemoteWriter) }

  lemma ShutdownStep(s: State)
    requires Inv(s) && EndsAll(s) && !Finished(s)
    ensures Enabled(s, NextShutdown(s))
    ensures var s' := Apply(s, NextShutdown(s)); EndsAll(s') && ShutdownLeft(s') < ShutdownLeft(s)
  {}

  lemma {:induction false} ReachesFinished(s: State) returns (events: seq<Event>, s': State)
    requires Inv(s) && EndsAll(s)
    ensures Runs(s, events, s') && Finished(s')
    decreases ShutdownLeft(s)
  {
    if Finished(s) {
      events, s' := [], s;
    } else {
      var e := NextShutdown(s);
      ShutdownStep(s);
      StepKeepsInv(s, e);
      hide Inv, Enabled, Apply, EndsAll, ShutdownLeft, NextShutdown;
      var rest;
      rest, s' := ReachesFinished(Apply(s, e));
      events := [e] + rest;
      assert events[1..] == rest;
    }
  }

  /** Some continuation has all three workers finished. */
  ghost predicate CanFinish(s: State) { exists events, s' :: Runs(s, events, s') && Finished(s') }

  /** Once the client side has failed to read, to resolve or to dial, or a write to the remote has failed, the whole
      session can come to its end. */
  lemma FailureEndsSession(start: State, events: seq<Event>, s: State, p: Party)
    requires Initial(start) && Runs(start, events, s) && (p == ClientSide || p == RemoteWriter)
    requires exists e | e in events :: IsEnd(e, p)
    ensures IsOver(s, p) && CanFinish(s)
  {
    OverExactlyWhen(start, events, s, p);
    InitialInv(start);
    RunKeepsInv(start, events, s);
    hide Runs, Inv, Finished;
    var events', s' := ReachesFinished(s);
    assert CanFinish(s);
  }

  // The remote side

  function RemoteLeft(s: State): nat
  {
    Count(s.reader.Failing?) + (if s.r2s.Done? then 0 else if s.r2s.PostEnd? then 1 else 2) + ReturnerLeft(s.s2c)
  }

  function NextRemote(s: State): Event
  {
    if s.r2s.PostEnd? then Watch(WatcherMove.PostEnd)
    else if !s.r2s.Done? then (if s.reader.Failing? then Read(PostError) else Watch(SeeError))
    else if s.s2c.Writing? then Return(Returned)
    else if s.s2c.PostEnd? then Return(ReturnerMove.PostEnd)
    else Return(ReturnerMove.Stop)
  }

  lemma RemoteStep(s: State)
    requires Inv(s) && IsOver(s, RemoteReader) && !(s.r2s.Done? && s.s2c.Done?)
    ensures Enabled(s, NextRemote(s))
    ensures var s' := Apply(s, NextRemote(s));
            IsOver(s', RemoteReader) && s'.feeder == s.feeder && RemoteLeft(s') < RemoteLeft(s)
  {}

  lemma {:induction false} RemoteEnds(s: State) returns (events: seq<Event>, s': State)
    requires Inv(s) && IsOver(s, RemoteReader)
    ensures Runs(s, events, s') && s'.r2s.Done? && s'.s2c.Done? && s'.feeder == s.feeder
    decreases RemoteLeft(s)
  {
    if s.r2s.Done? && s.s2c.Done? {
      events, s' := [], s;
    } else {
      var e := NextRemote(s);
      RemoteStep(s);
      StepKeepsInv(s, e);
      hide Inv, Enabled, Apply, IsOver, RemoteLeft, NextRemote;
      var rest;
      rest, s' := RemoteEnds(Apply(s, e));
      events := [e] + rest;
      assert events[1..] == rest;
    }
  }

  /** Some continuation has the workers on the remote's data finished, and the remote writer too unless the client side
      is still at work. */
  ghost predicate CanFinishRemote(s: State)
  {
    exists events, s' ::
      Runs(s, events, s') && s'.r2s.Done? && s'.s2c.Done? && (Finished(s') || !IsOver(s', ClientSide))
  }

  /** Once a read from the remote has failed. */
  lemma RemoteFailureEndsSession(start: State, events: seq<Event>, s: State)
    requires Initial(start) && Runs(start, events, s) && Read(ReadFailed) in events
    ensures IsOver(s, RemoteReader) && CanFinishRemote(s)
  {
    assert IsEnd(Read(ReadFailed), RemoteReader);
    OverExactlyWhen(start, events, s, RemoteReader);
    InitialInv(start);
    RunKeepsInv(start, events, s);
    hide Runs, Inv;
    if IsOver(s, ClientSide) {
      var events', s' := ReachesFinished(s);
      assert CanFinishRemote(s);
    } else {
      var events', s' := RemoteEnds(s);
      assert CanFinishRemote(s);
    }
  }
}
