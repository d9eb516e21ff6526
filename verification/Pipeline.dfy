/** The concurrent chunk reader as a state machine: a producer goroutine with an ordered window of
    result slots, one worker per launched chunk, a bounded buffer channel, and the reading consumer.
    Every interleaving of their steps is a behavior. */
module Pipeline {
  import opened Bytes
  import opened ChunkPlan

  const UNEXPECTED_EOF := Failure(1)
  const CHUNK_TIMEOUT := Failure(2)

  datatype Config = Config(data: seq<byte>, plan: Plan, threads: nat, buffers: nat) {
    predicate Valid() {
      plan.Valid() && plan.end < |data| && threads > 0
    }

    function Window(): nat
      requires Valid()
    {
      Min(threads, plan.TotalParts())
    }

    /** The bytes the caller asked for. */
    function Range(): seq<byte>
      requires Valid()
    {
      data[plan.start..plan.end + 1]
    }
  }

  /** What a worker puts into its one-slot result channel. */
  datatype Outcome = Chunk(bytes: seq<byte>) | Failed(error: Error)

  /** What the chunk source answered: some bytes, perhaps too few, or an error or timeout. */
  datatype Answer = Raw(bytes: seq<byte>) | Errored(error: Error)

  datatype Producer =
    | Launching
    | Receiving
    | Sending(chunk: seq<byte>)
    | Refilling
    | Exiting
    | Stopped

  /** An error that a Read call returned. */
  datatype Report = EndOfFile | CauseOf(error: Error) | Abandoned

  datatype State = State(
    producer: Producer,
    part: nat,                            // the producer's loop variable
    slots: seq<nat>,                      // per slot, the part whose result channel it holds
    channels: map<nat, seq<Outcome>>,     // the result channel of every launched part
    running: set<nat>,                    // launched parts whose worker has not posted yet
    queue: seq<seq<byte>>,                // bufferChan
    closed: bool,                         // bufferChan is closed
    cause: Option<Error>,                 // why the context was cancelled
    waiting: bool,                        // a Read call is blocked in its select
    cur: Buffer,
    limit: int,
    taken: nat,                           // history: buffers the consumer has received
    delivered: seq<byte>,                 // history: bytes handed to the caller
    reported: seq<Report>)                // history: errors returned to the caller

  datatype Step =
    | Launch
    | Post(worker: nat, answer: Answer)
    | Take
    | Send
    | Handoff
    | Refill
    | Abort
    | CloseChannel
    | Cancel(why: Error)
    | Begin
    | Receive
    | Copy(size: nat)
    | ReturnError

  function Init(cfg: Config): State
    requires cfg.Valid()
  {
    State(Launching, 0, [], map[], {}, [], false, None, false, NoBuffer, cfg.plan.Total(), 0, [], [])
  }

  /** How a worker turns the answer of the source into its result. */
  function WorkerResult(cfg: Config, part: nat, answer: Answer): Outcome
    requires cfg.Valid()
  {
    match answer
    case Errored(e) => Failed(e)
    case Raw(bytes) =>
      if |bytes| < cfg.plan.Right(part) || cfg.plan.Right(part) < cfg.plan.Left(part) then Failed(UNEXPECTED_EOF)
      else Chunk(bytes[cfg.plan.Left(part)..cfg.plan.Right(part)])
  }

  /** The source never invents bytes: it answers with a prefix of what it holds. Its errors reach
      the reader wrapped with the chunk number, so none of them is the bare end of file. */
  predicate Plausible(cfg: Config, part: nat, answer: Answer)
    requires cfg.Valid()
  {
    match answer
    case Errored(e) => e.Failure?
    case Raw(bytes) => bytes <= FaithfulChunk(cfg.data, cfg.plan.RequestOffset(part), cfg.plan.chunkSize)
  }

  /** The answer of a source that succeeds. */
  function FullAnswer(cfg: Config, part: nat): Answer
    requires cfg.Valid()
  {
    Raw(FaithfulChunk(cfg.data, cfg.plan.RequestOffset(part), cfg.plan.chunkSize))
  }

  predicate Enabled(cfg: Config, s: State, step: Step)
    requires cfg.Valid()
  {
    match step
    case Launch => s.producer.Launching?
    case Post(p, answer) => p in s.running && p in s.channels && s.channels[p] == [] && Plausible(cfg, p, answer)
    case Take =>
      && s.producer.Receiving? && s.part % cfg.Window() < |s.slots|
      && s.slots[s.part % cfg.Window()] in s.channels && s.channels[s.slots[s.part % cfg.Window()]] != []
    case Send => s.producer.Sending? && !s.closed && |s.queue| < cfg.buffers
    case Handoff => s.producer.Sending? && !s.closed && s.queue == [] && s.waiting
    case Refill => s.producer.Refilling? && s.part % cfg.Window() < |s.slots|
    case Abort => (s.producer.Receiving? || s.producer.Sending?) && s.cause.Some?
    case CloseChannel => s.producer.Exiting?
    case Cancel(why) => why.Failure?
    case Begin => !s.waiting && s.limit > 0 && s.cur.IsEmpty()
    case Receive => s.waiting && s.queue != []
    case Copy(_) => !s.waiting && s.limit > 0 && s.cur.Buffer? && !s.cur.IsEmpty()
    case ReturnError => if s.waiting then s.cause.Some? || (s.closed && s.queue == []) else s.limit <= 0
  }

  /** context.WithCancelCause keeps the first cause. */
  function Cancelled(s: State, why: Error): State {
    if s.cause.Some? then s else s.(cause := Some(why))
  }

  function Apply(cfg: Config, s: State, step: Step): State
    requires cfg.Valid() && Enabled(cfg, s, step)
  {
    match step
    case Launch =>
      var i := |s.slots|;
      s.(slots := s.slots + [i], channels := s.channels[i := []], running := s.running + {i},
         producer := if i + 1 == cfg.Window() then Receiving else Launching)
    case Post(p, answer) =>
      s.(channels := s.channels[p := [WorkerResult(cfg, p, answer)]], running := s.running - {p})
    case Take =>
      var p := s.slots[s.part % cfg.Window()];
      var s' := s.(channels := s.channels[p := s.channels[p][1..]]);
      (match s.channels[p][0]
       case Failed(e) => Cancelled(s', e).(producer := Exiting)
       case Chunk(bytes) => s'.(producer := Sending(bytes)))
    case Send => s.(queue := s.queue + [s.producer.chunk], producer := Refilling)
    case Handoff =>
      s.(producer := Refilling, cur := Buffer(s.producer.chunk, 0), waiting := false, taken := s.taken + 1)
    case Refill =>
      var next := s.part + cfg.Window();
      var s' := if next < cfg.plan.TotalParts()
                then s.(slots := s.slots[s.part % cfg.Window() := next],
                        channels := s.channels[next := []], running := s.running + {next})
                else s;
      s'.(part := s.part + 1, producer := if s.part + 1 < cfg.plan.TotalParts() then Receiving else Exiting)
    case Abort => s.(producer := Exiting)
    case CloseChannel => s.(closed := true, producer := Stopped)
    case Cancel(why) => Cancelled(s, why)
    case Begin => s.(waiting := true)
    case Receive => s.(queue := s.queue[1..], cur := Buffer(s.queue[0], 0), waiting := false, taken := s.taken + 1)
    case Copy(size) =>
      var n := Min(size, |s.cur.buf| - s.cur.offset);
      s.(cur := s.cur.Increment(n), limit := s.limit - n,
         delivered := s.delivered + s.cur.buf[s.cur.offset..s.cur.offset + n],
         reported := if s.limit - n <= 0 then s.reported + [EndOfFile] else s.reported)
    case ReturnError =>
      var report := if !s.waiting then EndOfFile
                    else if s.cause.Some? then CauseOf(s.cause.value) else Abandoned;
      s.(waiting := false, reported := s.reported + [report])
  }

  /** How many parts have been launched. */
  function Launched(cfg: Config, s: State): nat
    requires cfg.Valid()
  {
    if s.producer.Launching? then |s.slots| else Min(cfg.plan.TotalParts(), s.part + cfg.Window())
  }

  /** The first part whose result the producer has not taken. */
  function Untaken(s: State): nat {
    if s.producer.Launching? || s.producer.Receiving? then s.part else s.part + 1
  }

  /** The producer's side: loop variable, window of slots and channels. */
  ghost predicate ProducerInv(cfg: Config, s: State)
    requires cfg.Valid()
  {
    var n, w := cfg.plan.TotalParts(), cfg.Window();
    && s.part <= n
    && (s.producer.Launching? ==> s.part == 0 && |s.slots| < w)
    && (!s.producer.Launching? ==> |s.slots| == w)
    && (s.producer.Receiving? || s.producer.Sending? || s.producer.Refilling? ==> s.part < n)
    && (s.producer.Exiting? || s.producer.Stopped? ==> s.part == n || s.cause.Some?)
    && (s.closed <==> s.producer.Stopped?)
    && (forall p: nat :: p in s.channels <==> p < Launched(cfg, s))
    && (forall p: nat | s.part <= p < Launched(cfg, s) :: p % w < |s.slots| && s.slots[p % w] == p)
  }

  /** The workers' side: each result channel holds at most one result, and the right one. */
  ghost predicate WorkerInv(cfg: Config, s: State)
    requires cfg.Valid()
  {
    && (forall p | p in s.running :: p in s.channels && s.channels[p] == [])
    && (forall p | p in s.channels :: |s.channels[p]| <= 1 && p < cfg.plan.TotalParts())
    && (forall p | p in s.channels && s.channels[p] != [] && s.channels[p][0].Chunk? ::
          s.channels[p][0].bytes == Piece(cfg.plan, cfg.data, p))
    && (forall p | p in s.channels && s.channels[p] != [] && s.channels[p][0].Failed? :: s.channels[p][0].error.Failure?)
    && (forall p | p in s.channels && p >= Untaken(s) :: p in s.running || s.channels[p] != [])
  }

  /** The buffer channel: the pieces sent so far and not yet received, in order. */
  ghost predicate QueueInv(cfg: Config, s: State)
    requires cfg.Valid()
  {
    && s.taken + |s.queue| == s.part + (if s.producer.Refilling? then 1 else 0) <= cfg.plan.TotalParts()
    && |s.queue| <= cfg.buffers
    && (forall i | 0 <= i < |s.queue| :: s.queue[i] == Piece(cfg.plan, cfg.data, s.taken + i))
    && (s.producer.Sending? ==> s.part < cfg.plan.TotalParts() && s.producer.chunk == Piece(cfg.plan, cfg.data, s.part))
  }

  /** The consumer's side: what it has delivered and still holds is the range up to a piece boundary. */
  ghost predicate ConsumerInv(cfg: Config, s: State)
    requires cfg.Valid()
  {
    && s.taken <= cfg.plan.TotalParts() && s.cur.Valid()
    && cfg.plan.start <= Boundary(cfg.plan, s.taken) <= cfg.plan.end + 1
    && s.delivered + s.cur.Rest() == cfg.data[cfg.plan.start..Boundary(cfg.plan, s.taken)]
    && s.limit == cfg.plan.Total() - |s.delivered|
    && (s.waiting ==> s.limit > 0 && s.cur.IsEmpty())
    && (EndOfFile in s.reported ==> s.limit == 0)
    && Abandoned !in s.reported
    && (forall e | CauseOf(e) in s.reported :: s.cause == Some(e))
    && (s.cause.Some? ==> s.cause.value.Failure?)
  }

  ghost predicate Inv(cfg: Config, s: State)
    requires cfg.Valid()
  {
    ProducerInv(cfg, s) && WorkerInv(cfg, s) && QueueInv(cfg, s) && ConsumerInv(cfg, s)
  }

  lemma InitHolds(cfg: Config)
    requires cfg.Valid()
    ensures Inv(cfg, Init(cfg))
  {
    PlanShape(cfg.plan);
    assert cfg.data[cfg.plan.start..cfg.plan.start] == [];
  }

  /** Within a window, different parts use different slots; a part and its successor one window later share one. */
  lemma SlotsDiffer(p: nat, q: nat, w: nat)
    requires w > 0
    ensures p < q < p + w ==> p % w != q % w
    ensures (p + w) % w == p % w
  {
    var a, r := p / w, p % w;
    assert p == a * w + r;
    assert (a + 1) * w == a * w + w;
    DivUnique(p + w, w, a + 1, r);
    if p < q < p + w && p % w == q % w {
      var b := q / w;
      assert q == b * w + r;
      if b <= a {
        MulMonotone(b, a, w);
      } else {
        MulMonotone(a, b, w);
      }
      assert false;
    }
  }

  lemma ProducerLaunch(cfg: Config, s: State)
    requires cfg.Valid() && ProducerInv(cfg, s) && Enabled(cfg, s, Launch)
    ensures ProducerInv(cfg, Apply(cfg, s, Launch))
  {
    var s' := Apply(cfg, s, Launch);
    assert Launched(cfg, s') == |s'.slots| by {
      assert cfg.Window() <= cfg.plan.TotalParts();
    }
    forall p: nat | p < |s'.slots| ensures p % cfg.Window() == p {
      SmallModulo(p, cfg.Window());
    }
  }

  lemma ProducerRefill(cfg: Config, s: State)
    requires cfg.Valid() && ProducerInv(cfg, s) && Enabled(cfg, s, Refill)
    ensures ProducerInv(cfg, Apply(cfg, s, Refill))
  {
    var w, s' := cfg.Window(), Apply(cfg, s, Refill);
    forall p: nat | s'.part <= p < Launched(cfg, s')
      ensures p % w < |s'.slots| && s'.slots[p % w] == p
    {
      SlotsDiffer(s.part, p, w);
    }
  }

  lemma ProducerStep(cfg: Config, s: State, step: Step)
    requires cfg.Valid() && ProducerInv(cfg, s) && Enabled(cfg, s, step)
    ensures ProducerInv(cfg, Apply(cfg, s, step))
  {
    if step.Launch? {
      ProducerLaunch(cfg, s);
    } else if step.Refill? {
      ProducerRefill(cfg, s);
    } else {
      ProducerFrame(cfg, s, step);
      hide Apply, Enabled;
    }
  }

  /** All other steps leave the slots and the launched parts as they are. */
  lemma ProducerFrame(cfg: Config, s: State, step: Step)
    requires cfg.Valid() && ProducerInv(cfg, s) && Enabled(cfg, s, step) && !step.Launch? && !step.Refill?
    ensures var s', n := Apply(cfg, s, step), cfg.plan.TotalParts();
            && s'.part == s.part && s'.slots == s.slots && (forall p: nat :: p in s'.channels <==> p in s.channels)
            && (s'.producer.Launching? <==> s.producer.Launching?)
            && (s'.producer.Receiving? || s'.producer.Sending? || s'.producer.Refilling? ==> s.part < n)
            && (s'.producer.Exiting? || s'.producer.Stopped? ==> s.part == n || s'.cause.Some?)
            && (s'.closed <==> s'.producer.Stopped?)
            && Launched(cfg, s') == Launched(cfg, s) && (step.Post? || s'.running == s.running)
  {
  }

  lemma SmallModulo(p: nat, w: nat)
    requires p < w
    ensures p % w == p
  {
    DivUnique(p, w, 0, p);
  }

  lemma WorkerPost(cfg: Config, s: State, p: nat, answer: Answer)
    requires cfg.Valid() && WorkerInv(cfg, s) && Enabled(cfg, s, Post(p, answer))
    ensures WorkerInv(cfg, Apply(cfg, s, Post(p, answer)))
  {
    hide Piece;
    PiecesTile(cfg.plan, p);
    if WorkerResult(cfg, p, answer).Chunk? {
      CutIsPiece(cfg.plan, cfg.data, p, answer.bytes);
    }
  }

  lemma SlotHoldsPart(cfg: Config, s: State)
    requires cfg.Valid() && ProducerInv(cfg, s) && Enabled(cfg, s, Take)
    ensures s.slots[s.part % cfg.Window()] == s.part && s.part in s.channels && s.channels[s.part] != []
  {
  }

  lemma WorkerTake(cfg: Config, s: State)
    requires cfg.Valid() && ProducerInv(cfg, s) && WorkerInv(cfg, s) && Enabled(cfg, s, Take)
    ensures WorkerInv(cfg, Apply(cfg, s, Take))
  {
    SlotHoldsPart(cfg, s);
    hide ProducerInv, Piece;
    var s' := Apply(cfg, s, Take);
    assert s'.channels == s.channels[s.part := s.channels[s.part][1..]] && s'.running == s.running;
    assert Untaken(s') == s.part + 1;
  }

  lemma WorkerLaunch(cfg: Config, s: State)
    requires cfg.Valid() && Inv(cfg, s) && Enabled(cfg, s, Launch)
    ensures WorkerInv(cfg, Apply(cfg, s, Launch))
  {
    PlanShape(cfg.plan);
  }

  lemma WorkerRefill(cfg: Config, s: State)
    requires cfg.Valid() && Inv(cfg, s) && Enabled(cfg, s, Refill)
    ensures WorkerInv(cfg, Apply(cfg, s, Refill))
  {
    hide Piece, QueueInv, ConsumerInv;
  }

  lemma WorkerStep(cfg: Config, s: State, step: Step)
    requires cfg.Valid() && Inv(cfg, s) && Enabled(cfg, s, step)
    ensures WorkerInv(cfg, Apply(cfg, s, step))
  {
    hide ProducerInv, WorkerInv, QueueInv, ConsumerInv, Enabled, Apply;
    if step.Post? {
      WorkerPost(cfg, s, step.worker, step.answer);
    } else if step.Launch? {
      WorkerLaunch(cfg, s);
    } else if step.Refill? {
      WorkerRefill(cfg, s);
    } else if step.Take? {
      WorkerTake(cfg, s);
    } else {
      WorkersRest(cfg, s, step);
    }
  }

  lemma WorkersRest(cfg: Config, s: State, step: Step)
    requires cfg.Valid() && WorkerInv(cfg, s) && Enabled(cfg, s, step)
    requires !step.Post? && !step.Launch? && !step.Refill? && !step.Take?
    ensures WorkerInv(cfg, Apply(cfg, s, step))
  {
    var s' := Apply(cfg, s, step);
    assert s'.channels == s.channels && s'.running == s.running && Untaken(s') >= Untaken(s);
  }

  lemma QueueTake(cfg: Config, s: State)
    requires cfg.Valid() && ProducerInv(cfg, s) && WorkerInv(cfg, s) && QueueInv(cfg, s) && Enabled(cfg, s, Take)
    ensures QueueInv(cfg, Apply(cfg, s, Take))
  {
    SlotHoldsPart(cfg, s);
    hide ProducerInv, Piece;
  }

  lemma QueueMoves(cfg: Config, s: State, step: Step)
    requires cfg.Valid() && QueueInv(cfg, s) && Enabled(cfg, s, step)
    requires step.Send? || step.Handoff? || step.Receive?
    ensures QueueInv(cfg, Apply(cfg, s, step))
  {
  }

  lemma QueueStep(cfg: Config, s: State, step: Step)
    requires cfg.Valid() && Inv(cfg, s) && Enabled(cfg, s, step)
    ensures QueueInv(cfg, Apply(cfg, s, step))
  {
    hide Piece, ProducerInv, WorkerInv, ConsumerInv;
    if step.Take? {
      QueueTake(cfg, s);
    } else if step.Send? || step.Handoff? || step.Receive? {
      QueueMoves(cfg, s, step);
    } else {
      var s' := Apply(cfg, s, step);
      assert s'.queue == s.queue && s'.taken == s.taken && (s'.producer.Sending? ==> s'.producer == s.producer);
    }
  }

  lemma ConsumerGets(cfg: Config, s: State, s': State, chunk: seq<byte>)
    requires cfg.Valid() && ConsumerInv(cfg, s) && s.waiting && s.taken < cfg.plan.TotalParts()
    requires chunk == Piece(cfg.plan, cfg.data, s.taken)
    requires s'.cur == Buffer(chunk, 0) && s'.taken == s.taken + 1 && !s'.waiting && s'.limit == s.limit
    requires s'.delivered == s.delivered && s'.reported == s.reported && s'.cause == s.cause
    ensures ConsumerInv(cfg, s')
  {
    BoundaryStep(cfg.plan, cfg.data, s.taken);
    assert s'.cur.Rest() == chunk && s.cur.Rest() == [];
  }

  lemma ConsumerCopies(cfg: Config, s: State, size: nat)
    requires cfg.Valid() && ConsumerInv(cfg, s) && Enabled(cfg, s, Copy(size))
    ensures ConsumerInv(cfg, Apply(cfg, s, Copy(size)))
  {
    var s' := Apply(cfg, s, Copy(size));
    assert s.cur.Rest() == s.cur.buf[s.cur.offset..s'.cur.offset] + s'.cur.Rest();
    assert s.delivered + s.cur.Rest() == s'.delivered + s'.cur.Rest();
    ReadUpTo(cfg, s);
    assert |s'.delivered + s'.cur.Rest()| <= cfg.plan.Total();
  }

  lemma ConsumerReceives(cfg: Config, s: State, step: Step)
    requires cfg.Valid() && QueueInv(cfg, s) && ConsumerInv(cfg, s) && Enabled(cfg, s, step)
    requires step.Receive? || step.Handoff?
    ensures ConsumerInv(cfg, Apply(cfg, s, step))
  {
    hide ConsumerInv, Piece;
    WaitingImplies(cfg, s);
    ConsumerGets(cfg, s, Apply(cfg, s, step), if step.Receive? then s.queue[0] else s.producer.chunk);
  }

  lemma WaitingImplies(cfg: Config, s: State)
    requires cfg.Valid() && ConsumerInv(cfg, s)
    ensures s.waiting ==> s.limit > 0 && s.cur.IsEmpty()
    ensures s.limit >= 0
  {
    ReadUpTo(cfg, s);
  }

  lemma ConsumerReturns(cfg: Config, s: State)
    requires cfg.Valid() && Inv(cfg, s) && Enabled(cfg, s, ReturnError)
    ensures ConsumerInv(cfg, Apply(cfg, s, ReturnError))
  {
    ReadUpTo(cfg, s);
    if s.waiting && s.cause.None? {
      AllTakenMeansDone(cfg, s);
      assert false;
    }
  }

  lemma ConsumerRests(cfg: Config, s: State, step: Step)
    requires cfg.Valid() && ConsumerInv(cfg, s) && WorkerInv(cfg, s) && Enabled(cfg, s, step)
    requires !step.Receive? && !step.Handoff? && !step.Copy? && !step.ReturnError?
    ensures ConsumerInv(cfg, Apply(cfg, s, step))
  {
    RestsFrame(cfg, s, step);
    hide Apply, Enabled, Piece, Boundary, WorkerInv;
  }

  /** A step of another goroutine leaves the consumer alone; the only thing it may do to it is to cancel. */
  lemma RestsFrame(cfg: Config, s: State, step: Step)
    requires cfg.Valid() && WorkerInv(cfg, s) && Enabled(cfg, s, step)
    requires !step.Receive? && !step.Handoff? && !step.Copy? && !step.ReturnError?
    ensures var s' := Apply(cfg, s, step);
            && s'.cur == s.cur && s'.taken == s.taken && s'.delivered == s.delivered && s'.limit == s.limit
            && s'.reported == s.reported
            && (s'.waiting ==> s.waiting || (s.limit > 0 && s.cur.IsEmpty()))
            && (s'.cause == s.cause || (s.cause.None? && s'.cause.Some? && s'.cause.value.Failure?))
  {
    if !step.Take? {
      hide WorkerInv, WorkerResult, Plausible;
    }
  }

  lemma ConsumerStep(cfg: Config, s: State, step: Step)
    requires cfg.Valid() && Inv(cfg, s) && Enabled(cfg, s, step)
    ensures ConsumerInv(cfg, Apply(cfg, s, step))
  {
    hide ProducerInv, WorkerInv, QueueInv, ConsumerInv, Enabled, Apply;
    if step.Receive? || step.Handoff? {
      ConsumerReceives(cfg, s, step);
    } else if step.Copy? {
      ConsumerCopies(cfg, s, step.size);
    } else if step.ReturnError? {
      ConsumerReturns(cfg, s);
    } else {
      ConsumerRests(cfg, s, step);
    }
  }

  /** Once all pieces are received and used up, nothing is left to read. */
  lemma AllTakenMeansDone(cfg: Config, s: State)
    requires cfg.Valid() && ConsumerInv(cfg, s)
    requires s.taken == cfg.plan.TotalParts() && s.cur.IsEmpty()
    ensures s.limit == 0
  {
    PlanShape(cfg.plan);
    BoundaryStep(cfg.plan, cfg.data, s.taken - 1);
    assert s.cur.Rest() == [];
  }

  lemma StepKeepsInv(cfg: Config, s: State, step: Step)
    requires cfg.Valid() && Inv(cfg, s) && Enabled(cfg, s, step)
    ensures Inv(cfg, Apply(cfg, s, step))
  {
    ProducerStep(cfg, s, step);
    WorkerStep(cfg, s, step);
    QueueStep(cfg, s, step);
    ConsumerStep(cfg, s, step);
  }

  /** A run of the system: any interleaving of enabled steps. */
  ghost predicate Behavior(cfg: Config, states: seq<State>, steps: seq<Step>)
    requires cfg.Valid()
  {
    && |states| == |steps| + 1 && states[0] == Init(cfg)
    && forall i {:trigger steps[i]} | 0 <= i < |steps| :: Enabled(cfg, states[i], steps[i]) && states[i + 1] == Apply(cfg, states[i], steps[i])
  }

  lemma {:induction false} BehaviorInv(cfg: Config, states: seq<State>, steps: seq<Step>, i: nat)
    requires cfg.Valid() && Behavior(cfg, states, steps) && i < |states|
    ensures Inv(cfg, states[i])
    decreases i
  {
    if i == 0 {
      InitHolds(cfg);
    } else {
      BehaviorInv(cfg, states, steps, i - 1);
      assert Enabled(cfg, states[i - 1], steps[i - 1]);
      StepKeepsInv(cfg, states[i - 1], steps[i - 1]);
    }
  }

  /** Safety in every interleaving, with any mix of slow, failing and short chunks:
      the caller has read a prefix of the range; end of file is only ever reported after all of it;
      the stream is never reported as abandoned, and an error reported is the cancellation cause. */
  lemma ReadsAreSafe(cfg: Config, states: seq<State>, steps: seq<Step>, i: nat)
    requires cfg.Valid() && Behavior(cfg, states, steps) && i < |states|
    ensures states[i].delivered <= cfg.Range()
    ensures states[i].limit == |cfg.Range()| - |states[i].delivered|
    ensures EndOfFile in states[i].reported ==> states[i].delivered == cfg.Range()
    ensures Abandoned !in states[i].reported
    ensures forall e | CauseOf(e) in states[i].reported :: states[i].cause == Some(e)
  {
    hide Inv, ProducerInv, WorkerInv, QueueInv;
    BehaviorInv(cfg, states, steps, i);
    var s := states[i];
    InvParts(cfg, s);
    PrefixOfSlice(cfg.data, cfg.plan.start, Boundary(cfg.plan, s.taken), cfg.plan.end + 1, s.delivered, s.cur.Rest());
  }

  lemma InvParts(cfg: Config, s: State)
    requires cfg.Valid() && Inv(cfg, s)
    ensures ConsumerInv(cfg, s)
  {
  }

  /** Something whose continuation ends inside a slice is a prefix of the slice. */
  lemma PrefixOfSlice(data: seq<byte>, lo: nat, mid: nat, hi: nat, a: seq<byte>, b: seq<byte>)
    requires lo <= mid <= hi <= |data| && a + b == data[lo..mid]
    ensures a <= data[lo..hi] && data[lo..hi] == a + data[lo..hi][|a|..]
  {
    assert a == data[lo..mid][..|a|];
    assert data[lo..mid] == data[lo..hi][..mid - lo];
  }

  /** The order of the window: what the producer takes at loop index `part` is the result of chunk
      `part`, from slot `part` modulo the window, and if it is data, it is exactly that piece. */
  lemma TakesInOrder(cfg: Config, states: seq<State>, steps: seq<Step>, i: nat)
    requires cfg.Valid() && Behavior(cfg, states, steps) && i < |steps| && steps[i].Take?
    ensures states[i].part % cfg.Window() < |states[i].slots|
    ensures states[i].slots[states[i].part % cfg.Window()] == states[i].part < cfg.plan.TotalParts()
    ensures states[i + 1].producer.Sending? ==>
              states[i + 1].producer.chunk == Piece(cfg.plan, cfg.data, states[i].part)
    ensures !states[i + 1].producer.Sending? ==> states[i + 1].producer.Exiting? && states[i + 1].cause.Some?
  {
    BehaviorInv(cfg, states, steps, i);
    BehaviorInv(cfg, states, steps, i + 1);
    assert Enabled(cfg, states[i], steps[i]);
  }

  /** Resource bounds: a worker that has not posted finds its one-slot channel empty; nothing is sent
      after the close; launched chunks exceed received ones by at most the window plus the buffers. */
  lemma ResourcesAreBounded(cfg: Config, states: seq<State>, steps: seq<Step>, i: nat)
    requires cfg.Valid() && Behavior(cfg, states, steps) && i < |states|
    ensures forall p | p in states[i].running :: p in states[i].channels && states[i].channels[p] == []
    ensures states[i].closed ==> !states[i].producer.Sending?
    ensures |states[i].queue| <= cfg.buffers
    ensures |states[i].channels| <= states[i].taken + cfg.Window() + cfg.buffers
  {
    BehaviorInv(cfg, states, steps, i);
    var s := states[i];
    PrefixCount(s.channels.Keys, Launched(cfg, s));
    assert |s.channels| == |s.channels.Keys|;
  }

  lemma {:induction false} PrefixCount(s: set<nat>, n: nat)
    requires forall p: nat :: p in s <==> p < n
    ensures |s| == n
    decreases n
  {
    if n == 0 {
      assert s == {};
    } else {
      PrefixCount(s - {n - 1}, n - 1);
    }
  }

  /** What the workers and the producer have left of their parts. */
  function PartsLeft(cfg: Config, s: State): int
    requires cfg.Valid()
  {
    var n := cfg.plan.TotalParts();
    |s.running| + 2 * (n - Launched(cfg, s)) + 7 * (n - s.part)
  }

  function Stage(producer: Producer): nat {
    match producer
    case Launching => 7
    case Receiving => 6
    case Sending(_) => 5
    case Refilling => 2
    case Exiting => 1
    case Stopped => 0
  }

  /** What the producer, the consumer and the context have left beside that. */
  function StepsLeft(s: State): int {
    Stage(s.producer)
    + 2 * |s.queue| + (if s.waiting then 0 else 1) + s.limit + (if s.cause.None? then 1 else 0)
  }

  /** What remains to be done before the range is delivered. */
  function Remaining(cfg: Config, s: State): int
    requires cfg.Valid()
  {
    PartsLeft(cfg, s) + StepsLeft(s)
  }

  predicate Progresses(step: Step) {
    !step.ReturnError? && (step.Copy? ==> step.size > 0)
  }

  /** No livelock: every step but the return of an error brings the system closer to the end. */
  lemma StepDecreases(cfg: Config, s: State, step: Step)
    requires cfg.Valid() && Inv(cfg, s) && Enabled(cfg, s, step) && Progresses(step)
    requires step.Cancel? ==> s.cause.None?
    ensures 0 <= Remaining(cfg, Apply(cfg, s, step)) < Remaining(cfg, s)
  {
    StepKeepsInv(cfg, s, step);
    RemainingIsNat(cfg, Apply(cfg, s, step));
    if step.Launch? {
      LaunchDecreases(cfg, s);
    } else if step.Refill? {
      RefillDecreases(cfg, s);
    } else if step.Post? {
      PostDecreases(cfg, s, step.worker, step.answer);
    } else {
      OthersDecrease(cfg, s, step);
    }
  }

  lemma LaunchDecreases(cfg: Config, s: State)
    requires cfg.Valid() && ProducerInv(cfg, s) && WorkerInv(cfg, s) && Enabled(cfg, s, Launch)
    ensures Remaining(cfg, Apply(cfg, s, Launch)) < Remaining(cfg, s)
  {
    LaunchGrows(s.running, |s.slots|);
    assert |s.slots| !in s.running;
    assert Launched(cfg, Apply(cfg, s, Launch)) == Launched(cfg, s) + 1;
  }

  lemma PostDecreases(cfg: Config, s: State, p: nat, answer: Answer)
    requires cfg.Valid() && ProducerInv(cfg, s) && Enabled(cfg, s, Post(p, answer))
    ensures Remaining(cfg, Apply(cfg, s, Post(p, answer))) < Remaining(cfg, s)
  {
    hide Piece, Boundary, WorkerResult, Plausible;
    var s' := Apply(cfg, s, Post(p, answer));
    LaunchGrows(s'.running, p);
    assert s.running == s'.running + {p};
    assert Launched(cfg, s') == Launched(cfg, s);
  }

  lemma OthersDecrease(cfg: Config, s: State, step: Step)
    requires cfg.Valid() && ProducerInv(cfg, s) && ConsumerInv(cfg, s) && Enabled(cfg, s, step) && Progresses(step)
    requires step.Cancel? ==> s.cause.None?
    requires !step.Launch? && !step.Refill? && !step.Post?
    ensures Remaining(cfg, Apply(cfg, s, step)) < Remaining(cfg, s)
  {
    ProducerFrame(cfg, s, step);
    StepsLeftDecrease(cfg, s, step);
    hide PartsLeft, StepsLeft, ProducerInv, Apply, Enabled, Launched;
    SamePartsLeft(cfg, s, Apply(cfg, s, step));
  }

  lemma StepsLeftDecrease(cfg: Config, s: State, step: Step)
    requires cfg.Valid() && s.cur.Valid() && Enabled(cfg, s, step) && Progresses(step)
    requires step.Cancel? ==> s.cause.None?
    requires !step.Launch? && !step.Refill? && !step.Post?
    ensures StepsLeft(Apply(cfg, s, step)) < StepsLeft(s)
  {
    hide WorkerResult, Plausible;
  }

  lemma SamePartsLeft(cfg: Config, s: State, s': State)
    requires cfg.Valid() && s'.running == s.running && s'.part == s.part && Launched(cfg, s') == Launched(cfg, s)
    ensures PartsLeft(cfg, s') == PartsLeft(cfg, s)
  {
  }

  lemma LaunchGrows(running: set<nat>, p: nat)
    ensures p !in running ==> |running + {p}| == |running| + 1
  {
  }

  lemma RefillDecreases(cfg: Config, s: State)
    requires cfg.Valid() && ProducerInv(cfg, s) && WorkerInv(cfg, s) && Enabled(cfg, s, Refill)
    ensures Remaining(cfg, Apply(cfg, s, Refill)) < Remaining(cfg, s)
  {
    hide Piece;
    var next, n, s' := s.part + cfg.Window(), cfg.plan.TotalParts(), Apply(cfg, s, Refill);
    LaunchGrows(s.running, next);
    assert Launched(cfg, s) == Min(n, next) && Launched(cfg, s') == Min(n, next + 1);
    if next < n {
      assert next !in s.running;
      assert s'.running == s.running + {next};
    } else {
      assert s'.running == s.running;
    }
  }

  lemma RemainingIsNat(cfg: Config, s: State)
    requires cfg.Valid() && Inv(cfg, s)
    ensures 0 <= Remaining(cfg, s)
  {
    ReadUpTo(cfg, s);
  }

  lemma ReadUpTo(cfg: Config, s: State)
    requires cfg.Valid() && ConsumerInv(cfg, s)
    ensures |s.delivered| <= cfg.plan.Total() && s.limit >= 0
  {
    assert |s.delivered| <= |s.delivered + s.cur.Rest()|;
  }

  /** The step that some goroutine can always take while there is something left to read. */
  function NextStep(cfg: Config, s: State): Step
    requires cfg.Valid()
  {
    if !s.waiting then (if s.cur.IsEmpty() then Begin else Copy(1))
    else if s.queue != [] then Receive
    else match s.producer
      case Launching => Launch
      case Receiving => if s.part in s.running then Post(s.part, FullAnswer(cfg, s.part)) else Take
      case Sending(_) => Handoff
      case Refilling => Refill
      case Exiting => CloseChannel
      case Stopped => ReturnError
  }

  /** No deadlock: as long as bytes are missing and nothing was cancelled, a step with a successful
      fetch is enabled and makes progress. With StepDecreases, a reader whose fetches succeed and
      whose consumer keeps reading reaches the end of the range. */
  lemma NeverStuck(cfg: Config, s: State)
    requires cfg.Valid() && Inv(cfg, s) && s.limit > 0 && s.cause.None?
    ensures Enabled(cfg, s, NextStep(cfg, s)) && Progresses(NextStep(cfg, s)) && !NextStep(cfg, s).Cancel?
  {
    PlanShape(cfg.plan);
    if s.waiting && s.queue == [] {
      match s.producer
      case Stopped =>
        AllTakenMeansDone(cfg, s);
        assert false;
      case _ =>
    }
  }

  /** Steps of all but the reading goroutine. */
  predicate OfOthers(step: Step) {
    !step.Begin? && !step.Receive? && !step.Copy? && !step.ReturnError?
  }

  /** The chunks are fetched ahead of the reader: when producer and workers of a run can do no more on their own, the
      next pieces that nobody has read yet lie in the buffers, as many as these hold or as there are. */
  lemma ReadsAhead(cfg: Config, states: seq<State>, steps: seq<Step>, i: nat)
    requires cfg.Valid() && Behavior(cfg, states, steps) && i < |states| && states[i].cause.None?
    requires forall step | OfOthers(step) && !step.Cancel? :: !Enabled(cfg, states[i], step)
    ensures |states[i].queue| == Min(cfg.buffers, cfg.plan.TotalParts() - states[i].taken)
    ensures forall k: nat | k < |states[i].queue| :: states[i].queue[k] == Piece(cfg.plan, cfg.data, states[i].taken + k)
  {
    hide Piece;
    var s := states[i];
    BehaviorInv(cfg, states, steps, i);
    PlanShape(cfg.plan);
    var next := match s.producer
      case Launching => Launch
      case Receiving => if s.part in s.running then Post(s.part, FullAnswer(cfg, s.part)) else Take
      case Sending(_) => Send
      case Refilling => Refill
      case _ => CloseChannel;
    assert !Enabled(cfg, s, next);
  }

  /** A Read call never hangs for nothing: outside its select it can go on, and in it, it can once there is a buffer, a
      cause or a closed channel. When the whole range has been read, it returns, and the error is end of file. */
  lemma ReadGoesOn(cfg: Config, states: seq<State>, steps: seq<Step>, i: nat) returns (step: Step)
    requires cfg.Valid() && Behavior(cfg, states, steps) && i < |states|
    requires states[i].waiting ==> states[i].queue != [] || states[i].cause.Some? || states[i].closed
    ensures Enabled(cfg, states[i], step) && !OfOthers(step)
    ensures states[i].delivered == cfg.Range() ==>
              !states[i].waiting && Apply(cfg, states[i], step).reported == states[i].reported + [EndOfFile]
  {
    var s := states[i];
    BehaviorInv(cfg, states, steps, i);
    ReadsAreSafe(cfg, states, steps, i);
    step := if s.waiting then (if s.queue != [] then Receive else ReturnError)
            else if s.limit <= 0 then ReturnError
            else if s.cur.IsEmpty() then Begin else Copy(1);
  }

  /** A cancelled reader leaves no goroutine behind: as long as the producer has not returned or a worker is at work, one
      of them can take a step, whether or not anybody reads. With OthersAreBounded they all return. */
  lemma CancelledMoves(cfg: Config, s: State) returns (step: Step)
    requires cfg.Valid() && Inv(cfg, s) && s.cause.Some? && (!s.producer.Stopped? || s.running != {})
    ensures Enabled(cfg, s, step) && OfOthers(step) && !step.Cancel?
  {
    if s.running != {} {
      var p :| p in s.running;
      step := Post(p, Errored(UNEXPECTED_EOF));
    } else {
      step := match s.producer
        case Launching => Launch
        case Receiving => Abort
        case Sending(_) => Abort
        case Refilling => Refill
        case _ => CloseChannel;
    }
  }

  /** What is left to do for the producer and the workers alone. */
  function Left(cfg: Config, s: State): int
    requires cfg.Valid()
  {
    PartsLeft(cfg, s) + Stage(s.producer)
  }

  function OthersStep(step: Step): nat {
    if OfOthers(step) && !step.Cancel? then 1 else 0
  }

  lemma OthersShrink(cfg: Config, s: State, step: Step)
    requires cfg.Valid() && Inv(cfg, s) && Enabled(cfg, s, step)
    ensures Left(cfg, Apply(cfg, s, step)) + OthersStep(step) <= Left(cfg, s)
  {
    if step.Launch? || step.Refill? || step.Post? {
      if step.Launch? {
        LaunchDecreases(cfg, s);
      } else if step.Refill? {
        RefillDecreases(cfg, s);
      } else {
        PostDecreases(cfg, s, step.worker, step.answer);
      }
      ConsumerUntouched(cfg, s, step);
    } else {
      ProducerFrame(cfg, s, step);
      StageShrinks(cfg, s, step);
      hide Apply, Enabled, PartsLeft, Stage;
      SamePartsLeft(cfg, s, Apply(cfg, s, step));
    }
    hide Inv, Apply, Enabled, PartsLeft, Stage, StepsLeft;
  }

  lemma ConsumerUntouched(cfg: Config, s: State, step: Step)
    requires cfg.Valid() && Enabled(cfg, s, step) && (step.Launch? || step.Refill? || step.Post?)
    ensures var s' := Apply(cfg, s, step); StepsLeft(s') - Stage(s'.producer) == StepsLeft(s) - Stage(s.producer)
  {
    hide WorkerResult, Plausible, Stage;
  }

  lemma StageShrinks(cfg: Config, s: State, step: Step)
    requires cfg.Valid() && Enabled(cfg, s, step) && !step.Launch? && !step.Refill? && !step.Post?
    ensures Stage(Apply(cfg, s, step).producer) + OthersStep(step) <= Stage(s.producer)
  {
  }

  /** How many of the steps from `i` up to `j` the producer and the workers take. */
  function OthersTaken(steps: seq<Step>, i: nat, j: nat): nat
    requires i <= j <= |steps|
  {
    if i == j then 0 else OthersTaken(steps, i, j - 1) + OthersStep(steps[j - 1])
  }

  /** In every run, however the reading goroutine behaves and whether or not the context is cancelled, producer and
      workers take at most a fixed number of steps. */
  lemma {:induction false} OthersAreBounded(cfg: Config, states: seq<State>, steps: seq<Step>, i: nat, j: nat)
    requires cfg.Valid() && Behavior(cfg, states, steps) && i <= j <= |steps|
    ensures 0 <= Left(cfg, states[j]) && OthersTaken(steps, i, j) + Left(cfg, states[j]) <= Left(cfg, states[i])
    decreases j
  {
    hide Inv, Left, Enabled, Apply, OthersStep, Init;
    BehaviorInv(cfg, states, steps, j);
    LeftIsNat(cfg, states[j]);
    if i < j {
      BehaviorInv(cfg, states, steps, j - 1);
      assert Enabled(cfg, states[j - 1], steps[j - 1]) && states[j] == Apply(cfg, states[j - 1], steps[j - 1]);
      OthersShrink(cfg, states[j - 1], steps[j - 1]);
      OthersAreBounded(cfg, states, steps, i, j - 1);
    }
  }

  lemma LeftIsNat(cfg: Config, s: State)
    requires cfg.Valid() && Inv(cfg, s)
    ensures 0 <= Left(cfg, s)
  {
  }

  /** The worker of `part` cannot use the answer, and `e` says why. */
  predicate FailsWith(cfg: Config, part: nat, answer: Answer, e: Error)
    requires cfg.Valid()
  {
    match answer
    case Errored(why) => why == e
    case Raw(bytes) => |bytes| < cfg.plan.Right(part) && e == UNEXPECTED_EOF
  }

  predicate PostsFailure(cfg: Config, step: Step, part: nat, e: Error)
    requires cfg.Valid()
  {
    step.Post? && step.worker == part && FailsWith(cfg, part, step.answer, e)
  }

  lemma StepPostsFailure(cfg: Config, s: State, step: Step, p: nat)
    requires cfg.Valid() && Inv(cfg, s) && Enabled(cfg, s, step)
    requires var c := Apply(cfg, s, step).channels; p in c && c[p] != [] && c[p][0].Failed? && p < cfg.plan.TotalParts()
    ensures var outcome := Apply(cfg, s, step).channels[p][0];
            (p in s.channels && s.channels[p] != [] && s.channels[p][0] == outcome) || PostsFailure(cfg, step, p, outcome.error)
  {
    PiecesTile(cfg.plan, p);
    hide ProducerInv, QueueInv, ConsumerInv;
  }

  /** A failed result was posted by the worker of that part. */
  lemma {:induction false} FailureWasPosted(cfg: Config, states: seq<State>, steps: seq<Step>, i: nat, p: nat) returns (k: nat)
    requires cfg.Valid() && Behavior(cfg, states, steps) && i < |states|
    requires p in states[i].channels && states[i].channels[p] != [] && states[i].channels[p][0].Failed?
    ensures k < i && PostsFailure(cfg, steps[k], p, states[i].channels[p][0].error)
  {
    hide Inv, Apply, Enabled, PostsFailure;
    if i == 0 {
      assert false;
    } else {
      k := i - 1;
      BehaviorInv(cfg, states, steps, k);
      BehaviorInv(cfg, states, steps, i);
      PartsOnly(cfg, states[i], p);
      assert Enabled(cfg, states[k], steps[k]) && states[i] == Apply(cfg, states[k], steps[k]);
      StepPostsFailure(cfg, states[k], steps[k], p);
      if !PostsFailure(cfg, steps[k], p, states[i].channels[p][0].error) {
        k := FailureWasPosted(cfg, states, steps, k, p);
      }
    }
  }

  lemma PartsOnly(cfg: Config, s: State, p: nat)
    requires cfg.Valid() && Inv(cfg, s) && p in s.channels
    ensures p < cfg.plan.TotalParts()
  {
  }

  lemma StepCauses(cfg: Config, s: State, step: Step)
    requires cfg.Valid() && Inv(cfg, s) && Enabled(cfg, s, step) && Apply(cfg, s, step).cause.Some?
    ensures var e := Apply(cfg, s, step).cause.value;
            if s.cause.Some? then s.cause == Some(e)
            else step == Cancel(e) || (step.Take? && exists p :: p in s.channels && s.channels[p] != [] && s.channels[p][0] == Failed(e))
  {
    hide ProducerInv, WorkerInv, QueueInv, ConsumerInv, WorkerResult, Plausible;
  }

  /** What a reader reports as the cause of a cancellation is the reason that somebody cancelled it for, or the error with
      which the fetch of one of its chunks failed. The first one stays. */
  lemma {:induction false} CauseIsGenuine(cfg: Config, states: seq<State>, steps: seq<Step>, i: nat) returns (k: nat)
    requires cfg.Valid() && Behavior(cfg, states, steps) && i < |states| && states[i].cause.Some?
    ensures k < i && k < |steps|
    ensures var e := states[i].cause.value;
            steps[k] == Cancel(e) || (steps[k].Post? && FailsWith(cfg, steps[k].worker, steps[k].answer, e))
  {
    hide Inv, Apply, Enabled, FailsWith;
    if i == 0 {
      assert false;
    } else {
      k := i - 1;
      BehaviorInv(cfg, states, steps, k);
      assert Enabled(cfg, states[k], steps[k]) && states[i] == Apply(cfg, states[k], steps[k]);
      StepCauses(cfg, states[k], steps[k]);
      var e := states[i].cause.value;
      if states[k].cause.Some? {
        k := CauseIsGenuine(cfg, states, steps, k);
      } else if steps[k] != Cancel(e) {
        var p :| p in states[k].channels && states[k].channels[p] != [] && states[k].channels[p][0] == Failed(e);
        k := FailureWasPosted(cfg, states, steps, k, p);
      }
    }
  }

  lemma {:induction false} CauseStays(cfg: Config, states: seq<State>, steps: seq<Step>, i: nat, j: nat)
    requires cfg.Valid() && Behavior(cfg, states, steps) && i <= j < |states| && states[i].cause.Some?
    ensures states[j].cause == states[i].cause
    decreases j
  {
    if i < j {
      hide Inv, Apply, Enabled;
      CauseStays(cfg, states, steps, i, j - 1);
      BehaviorInv(cfg, states, steps, j - 1);
      assert Enabled(cfg, states[j - 1], steps[j - 1]) && states[j] == Apply(cfg, states[j - 1], steps[j - 1]);
      CauseOnce(cfg, states[j - 1], steps[j - 1]);
    }
  }

  lemma CauseOnce(cfg: Config, s: State, step: Step)
    requires cfg.Valid() && Enabled(cfg, s, step) && s.cause.Some?
    ensures Apply(cfg, s, step).cause == s.cause
  {
    hide WorkerResult, Plausible;
  }

  /** A successful fetch never produces a failed result. */
  lemma FullAnswerSucceeds(cfg: Config, part: nat)
    requires cfg.Valid() && part < cfg.plan.TotalParts()
    ensures Plausible(cfg, part, FullAnswer(cfg, part))
    ensures WorkerResult(cfg, part, FullAnswer(cfg, part)) == Chunk(Piece(cfg.plan, cfg.data, part))
  {
    FaithfulIsLongEnough(cfg.plan, cfg.data, part);
    PiecesTile(cfg.plan, part);
    CutIsPiece(cfg.plan, cfg.data, part, FullAnswer(cfg, part).bytes);
  }

  /** A step of a run in which nothing goes wrong: every fetch succeeds, nobody cancels,
      and the consumer keeps reading into non-empty buffers. */
  ghost predicate CleanStep(cfg: Config, step: Step)
    requires cfg.Valid()
  {
    && Progresses(step) && !step.Cancel?
    && (step.Post? ==> step.answer == FullAnswer(cfg, step.worker))
  }

  ghost predicate CleanState(s: State) {
    && s.cause.None?
    && (forall p | p in s.channels && s.channels[p] != [] :: s.channels[p][0].Chunk?)
  }

  lemma CleanStepKeepsClean(cfg: Config, s: State, step: Step)
    requires cfg.Valid() && Inv(cfg, s) && CleanState(s) && Enabled(cfg, s, step) && CleanStep(cfg, step)
    ensures CleanState(Apply(cfg, s, step))
  {
    if step.Post? {
      FullAnswerSucceeds(cfg, step.worker);
    }
  }

  lemma StartsClean(cfg: Config)
    requires cfg.Valid()
    ensures CleanState(Init(cfg))
  {
  }

  lemma {:induction false} CleanPrefix(cfg: Config, states: seq<State>, steps: seq<Step>, i: nat)
    requires cfg.Valid() && Behavior(cfg, states, steps) && i < |states|
    requires forall j | 0 <= j < |steps| :: CleanStep(cfg, steps[j])
    ensures Inv(cfg, states[i]) && CleanState(states[i])
    ensures i + Remaining(cfg, states[i]) <= Remaining(cfg, Init(cfg))
    decreases i
  {
    hide Inv, Apply, Remaining, CleanState, Init;
    BehaviorInv(cfg, states, steps, i);
    if i == 0 {
      StartsClean(cfg);
    } else {
      CleanPrefix(cfg, states, steps, i - 1);
      assert Enabled(cfg, states[i - 1], steps[i - 1]) && CleanStep(cfg, steps[i - 1]);
      CleanStepKeepsClean(cfg, states[i - 1], steps[i - 1]);
      StepDecreases(cfg, states[i - 1], steps[i - 1]);
    }
  }

  /** Completeness: a clean run cannot go on forever, and when no clean step is left,
      the whole range has been delivered. */
  lemma CleanRunsComplete(cfg: Config, states: seq<State>, steps: seq<Step>)
    requires cfg.Valid() && Behavior(cfg, states, steps)
    requires forall j | 0 <= j < |steps| :: CleanStep(cfg, steps[j])
    ensures |steps| <= Remaining(cfg, Init(cfg))
    ensures states[|steps|].cause.None?
    ensures (forall step | CleanStep(cfg, step) :: !Enabled(cfg, states[|steps|], step))
            ==> states[|steps|].delivered == cfg.Range() && EndOfFile in states[|steps|].reported
  {
    var s := states[|steps|];
    CleanPrefix(cfg, states, steps, |steps|);
    RemainingIsNat(cfg, s);
    ReadsAreSafe(cfg, states, steps, |steps|);
    ReadUpTo(cfg, s);
    if s.limit > 0 {
      NeverStuck(cfg, s);
      assert CleanStep(cfg, NextStep(cfg, s)) && Enabled(cfg, s, NextStep(cfg, s));
    } else {
      LimitReachedIsReported(cfg, states, steps, |steps|);
    }
  }

  lemma LimitStep(cfg: Config, s: State, step: Step)
    requires cfg.Valid() && Enabled(cfg, s, step)
    requires s.limit <= 0 ==> EndOfFile in s.reported
    ensures Apply(cfg, s, step).limit <= 0 ==> EndOfFile in Apply(cfg, s, step).reported
  {
  }

  /** The read that uses up the range also returns end of file. */
  lemma {:induction false} LimitReachedIsReported(cfg: Config, states: seq<State>, steps: seq<Step>, i: nat)
    requires cfg.Valid() && Behavior(cfg, states, steps) && i < |states|
    ensures states[i].limit <= 0 ==> EndOfFile in states[i].reported
    decreases i
  {
    if i > 0 {
      LimitReachedIsReported(cfg, states, steps, i - 1);
      LimitStep(cfg, states[i - 1], steps[i - 1]);
    }
  }
}
