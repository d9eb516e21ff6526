/** The byte readers: a stream in memory, the sequential and the parallel chunk reader.
    Each reader keeps, in the ghost field `owed`, the bytes it still has to deliver; all of them
    keep the same contract, so that the code that reads from them need not tell them apart. */
module Readers {
  import opened Bytes
  import opened ChunkPlan
  import opened Pipeline

  const CANCELED := Failure(0)
  const REQUEST_FAILED := Failure(3)

  /** A chunk request, which must stay inside one window of 1 MiB. An unreliable source may fail; a chunk it does return is what the part holds. No failure is
      the bare end of file: the sequential reader hands it to its caller as it is. */
  method FetchChunk(data: seq<byte>, reliable: bool, offset: nat, limit: nat) returns (r: Result<seq<byte>>)
    requires limit > 0 && offset / 1048576 == (offset + limit - 1) / 1048576
    ensures r.Ok? ==> r.value == FaithfulChunk(data, offset, limit)
    ensures reliable ==> r.Ok?
    ensures r.Err? ==> r.error == REQUEST_FAILED
  {
    r := Ok(FaithfulChunk(data, offset, limit));
    if !reliable {
      if * {
        r := Err(REQUEST_FAILED);
      }
    }
  }

  /** A stream that hands out its bytes in pieces of its own choosing and then ends with `fin`. */
  class ByteStream {
    const fin: Error
    var rest: seq<byte>
    ghost var owed: seq<byte>

    constructor (bytes: seq<byte>, fin: Error)
      requires fin == Eof || fin.Failure?
      ensures Valid() && owed == bytes && this.fin == fin
    {
      this.fin := fin;
      rest := bytes;
      owed := bytes;
    }

    ghost predicate Valid()
      reads this
    {
      owed == rest && (fin == Eof || fin.Failure?)
    }

    method Read(size: nat) returns (data: seq<byte>, err: Option<Error>)
      requires Valid()
      modifies this
      ensures Valid()
      ensures old(owed) == data + owed && |data| <= size
      ensures err.None? && size > 0 ==> data != []
      ensures err.Some? ==> err.value == fin && owed == []
      ensures err.Some? && err.value != Eof ==> err.value.Failure? && data == []
    {
      if rest == [] {
        return [], Some(fin);
      }
      if size == 0 {
        return [], None;
      }
      var available := Min(size, |rest|);
      var n: nat :| 1 <= n <= available;
      data, err := rest[..n], None;
      rest := rest[n..];
      owed := rest;
      if rest == [] && fin == Eof {
        if * {
          err := Some(Eof);
        }
      }
    }
  }

  /** The sequential chunk reader. */
  class TgReader {
    const part: seq<byte>
    const reliable: bool
    ghost const plan: Plan
    const chunkSize: nat
    const leftCut: nat
    const rightCut: nat
    const totalParts: nat
    var cur: Buffer
    var offset: nat
    var limit: int
    var currentPart: nat
    ghost var owed: seq<byte>

    ghost predicate Valid()
      reads this
    {
      ValidWith(cur)
    }

    /** Valid when `c` is taken for the current buffer. */
    ghost predicate ValidWith(c: Buffer)
      reads this
    {
      && c.Valid()
      && (limit <= 0 ==> owed == [])
      && (limit > 0 ==>
            && plan.Valid() && plan.end < |part| && IsChunkSize(plan.chunkSize, plan.start, plan.end)
            && chunkSize == plan.chunkSize && leftCut == plan.LeftCut() && rightCut == plan.RightCut()
            && totalParts == plan.TotalParts()
            && 1 <= currentPart <= totalParts + 1
            && offset == plan.RequestOffset(currentPart - 1)
            && Boundary(plan, currentPart - 1) <= plan.end + 1
            && owed == c.Rest() + part[Boundary(plan, currentPart - 1)..plan.end + 1]
            && limit == |owed|)
    }

    /** An empty range (`end` before `start`) is allowed: it ends at once, and only `limit` matters. */
    constructor (part: seq<byte>, start: nat, end: int, reliable: bool)
      requires end < |part|
      ensures Valid() && this.reliable == reliable
      ensures owed == if start <= end then part[start..end + 1] else []
    {
      var size := CalculateChunkSize(start, end);
      this.part, this.reliable, chunkSize := part, reliable, size;
      cur, limit, currentPart := NoBuffer, end - start + 1, 1;
      if start <= end {
        var p := Plan(start, end, size);
        PlanShape(p);
        assert p.RequestOffset(0) == p.Base();
        leftCut, rightCut, totalParts, offset := p.LeftCut(), p.RightCut(), p.TotalParts(), p.Base();
        plan, owed := p, part[start..end + 1];
      } else {
        leftCut, rightCut, totalParts, offset := 0, 0, 0, 0;
        plan, owed := Plan(0, 0, 0), [];
      }
    }

    /** Fetches and cuts the next chunk. */
    method Next() returns (r: Result<Buffer>)
      requires Valid() && limit > 0 && cur.IsEmpty()
      modifies this`currentPart, this`offset
      ensures r.Err? ==> Valid() && r.error == REQUEST_FAILED && !reliable
      ensures r.Ok? ==> ValidWith(r.value) && r.value.Buffer? && !r.value.IsEmpty()
    {
      hide Piece, FaithfulChunk, Boundary, IsChunkSize, Plan.Base, Plan.LeftCut, Plan.RightCut, Plan.TotalParts, Plan.RequestOffset;
      assert cur.Rest() == [];
      if currentPart > totalParts {
        PlanShape(plan);
        BoundaryStep(plan, part, totalParts - 1);
        assert false;
        return Err(Eof);
      }
      RequestsAreSmall(plan, currentPart - 1);
      var answer := FetchChunk(part, reliable, offset, chunkSize);
      if answer.Err? {
        return Err(answer.error);
      }
      var chunk := answer.value;
      ghost var p := currentPart - 1;
      CutsAgree(plan, part, p, chunk);
      BoundaryStep(plan, part, p);
      if totalParts == 1 {
        chunk := chunk[leftCut..rightCut];
      } else if currentPart == 1 {
        chunk := chunk[leftCut..];
      } else if currentPart == totalParts {
        chunk := chunk[..rightCut];
      }
      assert chunk == Piece(plan, part, p);
      currentPart := currentPart + 1;
      offset := offset + chunkSize;
      return Ok(Buffer(chunk, 0));
    }

    method Read(size: nat) returns (data: seq<byte>, err: Option<Error>)
      requires Valid()
      modifies this
      ensures Valid()
      ensures old(owed) == data + owed && |data| <= size
      ensures err == Some(Eof) ==> owed == []
      ensures old(owed) == [] ==> err == Some(Eof)
      ensures err.None? ==> owed != [] && (size > 0 ==> data != [])
      ensures err.Some? && err.value != Eof ==> err.value.Failure? && !reliable && data == []
    {
      hide Piece, FaithfulChunk, Boundary, Buffer.Rest, IsChunkSize;
      hide Plan.Base, Plan.LeftCut, Plan.RightCut, Plan.TotalParts, Plan.RequestOffset;
      if limit <= 0 {
        return [], Some(Eof);
      }
      if cur.IsEmpty() {
        var next := Next();
        if next.Err? {
          return [], Some(next.error);
        }
        cur := next.value;
      }
      var n := Min(size, |cur.buf| - cur.offset);
      data := cur.buf[cur.offset..cur.offset + n];
      RestSplits(cur, n, part[Boundary(plan, currentPart - 1)..plan.end + 1]);
      cur := cur.Increment(n);
      limit := limit - n;
      owed := owed[n..];
      err := if limit <= 0 then Some(Eof) else None;
    }
  }

  lemma RestSplits(b: Buffer, n: nat, tail: seq<byte>)
    requires b.Buffer? && b.Valid() && b.offset + n <= |b.buf|
    ensures b.Increment(n).Valid()
    ensures |b.Rest() + tail| >= n && (b.Rest() + tail)[n..] == b.Increment(n).Rest() + tail
    ensures b.Rest() + tail == b.buf[b.offset..b.offset + n] + (b.Rest() + tail)[n..]
  {
  }

  /** The three ways in which the sequential reader cuts a chunk all give the piece. */
  lemma CutsAgree(p: Plan, data: seq<byte>, i: nat, chunk: seq<byte>)
    requires p.Valid() && p.end < |data| && i < p.TotalParts()
    requires chunk == FaithfulChunk(data, p.RequestOffset(i), p.chunkSize)
    ensures (i == 0 ==> p.LeftCut() <= |chunk|) && (i == p.TotalParts() - 1 ==> p.RightCut() <= |chunk|)
    ensures p.TotalParts() == 1 ==> p.LeftCut() <= p.RightCut() && chunk[p.LeftCut()..p.RightCut()] == Piece(p, data, i)
    ensures p.TotalParts() > 1 && i == 0 ==> chunk[p.LeftCut()..] == Piece(p, data, i)
    ensures p.TotalParts() > 1 && i == p.TotalParts() - 1 ==> chunk[..p.RightCut()] == Piece(p, data, i)
    ensures 0 < i < p.TotalParts() - 1 ==> chunk == Piece(p, data, i)
    ensures p.RequestOffset(i + 1) == p.RequestOffset(i) + p.chunkSize
  {
    PlanShape(p);
    FaithfulIsLongEnough(p, data, i);
    PiecesTile(p, i);
    CutIsPiece(p, data, i, chunk);
    if i < p.TotalParts() - 1 {
      assert |chunk| == p.chunkSize;
    }
  }

  /** The parallel chunk reader: the reading goroutine of the pipeline. Before each read the other goroutines go on as
      far as they like; while a read waits in its select, a scheduler chooses freely among their steps and its own. */
  class TgMultiReader {
    const cfg: Config
    var reliable: bool
    var s: State
    ghost var owed: seq<byte>

    ghost predicate Valid()
      reads this
    {
      Delivering(cfg, s, reliable, owed) && IsChunkSize(cfg.plan.chunkSize, cfg.plan.start, cfg.plan.end)
    }

    constructor (part: seq<byte>, start: nat, end: nat, threads: nat, buffers: nat, reliable: bool)
      requires start <= end < |part| && threads > 0
      ensures Valid() && this.reliable == reliable
      ensures owed == part[start..end + 1] && cfg.threads == threads && cfg.buffers == buffers
    {
      var size := CalculateChunkSize(start, end);
      var c := Config(part, Plan(start, end, size), threads, buffers);
      cfg, this.reliable, s := c, reliable, Init(c);
      owed := part[start..end + 1];
      new;
      InitHolds(cfg);
    }

    method Close()
      requires Valid()
      modifies this
      ensures Valid() && owed == old(owed) && !reliable && s.cause.Some?
    {
      StepKeepsInv(cfg, s, Cancel(CANCELED));
      s := Apply(cfg, s, Cancel(CANCELED));
      reliable := false;
    }

    method Read(size: nat) returns (data: seq<byte>, err: Option<Error>)
      requires Valid()
      modifies this
      ensures Valid() && reliable == old(reliable)
      ensures old(owed) == data + owed && |data| <= size
      ensures err == Some(Eof) ==> owed == []
      ensures old(owed) == [] ==> err == Some(Eof)
      ensures err.None? ==> owed != [] && (size > 0 ==> data != [])
      ensures err.Some? && err.value != Eof ==> err.value.Failure? && !reliable && data == []
    {
      hide Inv, CleanState, Apply, Enabled, Delivering, IsChunkSize;
      DeliveringIsInv(cfg, s, reliable, owed);
      s := Background(cfg, s, reliable);
      InvIsDelivering(cfg, s, reliable, owed);
      DeliveringIsInv(cfg, s, reliable, owed);
      if s.limit <= 0 {
        s := Apply(cfg, s, ReturnError);
        return [], Some(Eof);
      }
      if s.cur.IsEmpty() {
        s, err := Await(cfg, s, reliable);
        InvIsDelivering(cfg, s, reliable, owed);
        if err.Some? {
          return [], err;
        }
      } else {
        NonemptyIsBuffer(s.cur);
      }
      CopyDelivers(cfg, s, reliable, owed, size);
      var n := Min(size, |s.cur.buf| - s.cur.offset);
      data := s.cur.buf[s.cur.offset..s.cur.offset + n];
      s := Apply(cfg, s, Copy(size));
      owed := owed[n..];
      err := if s.limit <= 0 then Some(Eof) else None;
    }
  }

  /** Between two reads: what was delivered and what is owed make up the range. */
  ghost predicate Delivering(cfg: Config, s: State, reliable: bool, owed: seq<byte>) {
    && cfg.Valid() && Inv(cfg, s) && !s.waiting
    && (reliable ==> CleanState(s))
    && s.delivered + owed == cfg.Range()
  }

  lemma DeliveringIsInv(cfg: Config, s: State, reliable: bool, owed: seq<byte>)
    requires Delivering(cfg, s, reliable, owed)
    ensures cfg.Valid() && Inv(cfg, s) && !s.waiting && (reliable ==> CleanState(s)) && s.delivered + owed == cfg.Range()
    ensures s.cur.Valid() && (owed == [] ==> s.limit <= 0)
    ensures s.limit <= 0 ==>
              owed == [] && Enabled(cfg, s, ReturnError) && Delivering(cfg, Apply(cfg, s, ReturnError), reliable, owed)
  {
    ReadUpTo(cfg, s);
    if s.limit <= 0 {
      StepKeepsInv(cfg, s, ReturnError);
    }
  }

  lemma InvIsDelivering(cfg: Config, s: State, reliable: bool, owed: seq<byte>)
    requires cfg.Valid() && Inv(cfg, s) && !s.waiting && (reliable ==> CleanState(s)) && s.delivered + owed == cfg.Range()
    ensures Delivering(cfg, s, reliable, owed) && s.cur.Valid()
  {
  }

  lemma CopyDelivers(cfg: Config, s: State, reliable: bool, owed: seq<byte>, size: nat)
    requires Delivering(cfg, s, reliable, owed) && s.limit > 0 && s.cur.Buffer? && s.cur.Valid() && !s.cur.IsEmpty()
    ensures Enabled(cfg, s, Copy(size))
    ensures var s', n := Apply(cfg, s, Copy(size)), Min(size, |s.cur.buf| - s.cur.offset);
            && n <= |owed| && owed == s.cur.buf[s.cur.offset..s.cur.offset + n] + owed[n..]
            && Delivering(cfg, s', reliable, owed[n..])
            && (s'.limit <= 0 <==> owed[n..] == [])
  {
    StepKeepsInv(cfg, s, Copy(size));
    var s', n := Apply(cfg, s, Copy(size)), Min(size, |s.cur.buf| - s.cur.offset);
    DeliveredGrows(cfg, s', s.delivered, s.cur.buf[s.cur.offset..s.cur.offset + n], owed);
  }

  lemma NonemptyIsBuffer(b: Buffer)
    requires !b.IsEmpty()
    ensures b.Buffer?
  {
  }

  lemma DeliveredGrows(cfg: Config, s: State, before: seq<byte>, data: seq<byte>, owed: seq<byte>)
    requires cfg.Valid() && ConsumerInv(cfg, s) && s.delivered == before + data && before + owed == cfg.Range()
    ensures |data| <= |owed| && owed == data + owed[|data|..] && s.delivered + owed[|data|..] == cfg.Range()
    ensures s.limit <= 0 <==> owed[|data|..] == []
  {
    PrefixOfSlice(cfg.data, cfg.plan.start, Boundary(cfg.plan, s.taken), cfg.plan.end + 1, s.delivered, s.cur.Rest());
    assert |cfg.Range()| == cfg.plan.Total();
    hide *;
    PrefixGrows(cfg.Range(), before, data, owed);
  }

  lemma PrefixGrows(range: seq<byte>, before: seq<byte>, data: seq<byte>, owed: seq<byte>)
    requires before + owed == range && before + data <= range
    ensures |data| <= |owed| && owed == data + owed[|data|..] && (before + data) + owed[|data|..] == range
    ensures |before + data| + |owed[|data|..]| == |range|
  {
    assert data == range[|before|..][..|data|] && owed == range[|before|..];
  }

  /** A step that ends the wait brings a buffer with something in it. */
  lemma ReceivedIsNonempty(cfg: Config, s: State, step: Step)
    requires cfg.Valid() && Inv(cfg, s) && s.waiting && Enabled(cfg, s, step) && !step.ReturnError?
    ensures var s' := Apply(cfg, s, step);
            && s'.delivered == s.delivered && s'.limit == s.limit
            && (!s'.waiting ==> !s'.cur.IsEmpty() && s'.cur.Buffer?)
  {
    if step.Receive? {
      assert s.queue[0] == Piece(cfg.plan, cfg.data, s.taken);
    }
  }

  /** Whether one of the other goroutines, or whoever may cancel, can take a step. */
  predicate OthersCanMove(cfg: Config, s: State, reliable: bool)
    requires cfg.Valid()
  {
    || s.producer.Launching? || TakeIsReady(cfg, s) || (s.producer.Sending? && !s.closed && |s.queue| < cfg.buffers)
    || (s.producer.Sending? && !s.closed && s.queue == [] && s.waiting)
    || (s.producer.Refilling? && s.part % cfg.Window() < |s.slots|)
    || ((s.producer.Receiving? || s.producer.Sending?) && s.cause.Some?) || s.producer.Exiting?
    || (!reliable && s.cause.None?) || s.running != {}
  }

  predicate TakeIsReady(cfg: Config, s: State)
    requires cfg.Valid()
  {
    var slot := s.part % cfg.Window();
    s.producer.Receiving? && slot < |s.slots| && s.slots[slot] in s.channels && s.channels[s.slots[slot]] != []
  }

  /** Picks any step that the other goroutines can take; in an unreliable pipeline fetches may fail or come
      short and the context may be cancelled. */
  method MoveOthers(cfg: Config, s: State, reliable: bool) returns (step: Step)
    requires cfg.Valid() && Inv(cfg, s) && OthersCanMove(cfg, s, reliable)
    ensures Enabled(cfg, s, step) && OfOthers(step) && Progresses(step)
    ensures step.Cancel? ==> s.cause.None?
    ensures reliable ==> CleanStep(cfg, step)
  {
    if
    case s.producer.Launching? => step := Launch;
    case TakeIsReady(cfg, s) => step := Take;
    case s.producer.Sending? && !s.closed && |s.queue| < cfg.buffers => step := Send;
    case s.producer.Sending? && !s.closed && s.queue == [] && s.waiting => step := Handoff;
    case s.producer.Refilling? && s.part % cfg.Window() < |s.slots| => step := Refill;
    case (s.producer.Receiving? || s.producer.Sending?) && s.cause.Some? => step := Abort;
    case s.producer.Exiting? => step := CloseChannel;
    case !reliable && s.cause.None? => step := Cancel(CANCELED);
    case s.running != {} =>
      var p :| p in s.running;
      var full := FullAnswer(cfg, p).bytes;
      step := Post(p, Raw(full));
      if !reliable {
        if * {
          step := Post(p, Errored(CHUNK_TIMEOUT));
        } else {
          var n: nat :| n <= |full|;
          step := Post(p, Raw(full[..n]));
        }
      }
  }

  /** Between two reads the other goroutines go on for as long as they like and can. */
  method Background(cfg: Config, before: State, reliable: bool) returns (s: State)
    requires cfg.Valid() && Inv(cfg, before) && !before.waiting && (reliable ==> CleanState(before))
    ensures Inv(cfg, s) && !s.waiting && (reliable ==> CleanState(s))
    ensures s.delivered == before.delivered && s.limit == before.limit && s.cur == before.cur
  {
    hide Inv, Remaining, Apply, CleanState, OthersCanMove;
    s := before;
    while OthersCanMove(cfg, s, reliable)
      invariant Inv(cfg, s) && !s.waiting && (reliable ==> CleanState(s))
      invariant s.delivered == before.delivered && s.limit == before.limit && s.cur == before.cur
      decreases Remaining(cfg, s)
    {
      if * {
        return;
      }
      var step := MoveOthers(cfg, s, reliable);
      BackgroundStep(cfg, s, step, reliable);
      s := Apply(cfg, s, step);
    }
  }

  lemma BackgroundStep(cfg: Config, s: State, step: Step, reliable: bool)
    requires cfg.Valid() && Inv(cfg, s) && !s.waiting && Enabled(cfg, s, step) && OfOthers(step) && Progresses(step)
    requires step.Cancel? ==> s.cause.None?
    requires reliable ==> CleanState(s) && CleanStep(cfg, step)
    ensures var s' := Apply(cfg, s, step);
            && Inv(cfg, s') && !s'.waiting && (reliable ==> CleanState(s'))
            && s'.delivered == s.delivered && s'.limit == s.limit && s'.cur == s.cur
            && 0 <= Remaining(cfg, s') < Remaining(cfg, s)
  {
    hide Inv, Remaining;
    StepKeepsInv(cfg, s, step);
    StepDecreases(cfg, s, step);
    if reliable {
      CleanStepKeepsClean(cfg, s, step);
    }
  }

  /** Picks, while a read waits, any step of the other goroutines or of the waiting read itself. */
  method Schedule(cfg: Config, s: State, reliable: bool) returns (step: Step)
    requires cfg.Valid() && Inv(cfg, s) && s.waiting
    requires reliable ==> CleanState(s)
    ensures Enabled(cfg, s, step)
    ensures step.ReturnError? ==> s.cause.Some? && !reliable
    ensures !step.ReturnError? ==> Progresses(step)
    ensures step.Cancel? ==> s.cause.None?
    ensures reliable ==> CleanStep(cfg, step)
  {
    ghost var next := NextStep(cfg, s);
    if s.cause.None? {
      NeverStuck(cfg, s);
    }
    if
    case s.queue != [] => step := Receive;
    case s.cause.Some? => step := ReturnError;
    case OthersCanMove(cfg, s, reliable) => step := MoveOthers(cfg, s, reliable);
  }

  /** Waits for the next buffer, or for the reason why none will come. */
  method Await(cfg: Config, before: State, reliable: bool) returns (s: State, err: Option<Error>)
    requires cfg.Valid() && Inv(cfg, before) && !before.waiting && before.limit > 0 && before.cur.IsEmpty()
    requires reliable ==> CleanState(before)
    ensures Inv(cfg, s) && !s.waiting && s.delivered == before.delivered && s.limit == before.limit
    ensures reliable ==> CleanState(s)
    ensures err.None? ==> s.cur.Buffer? && !s.cur.IsEmpty()
    ensures err.Some? ==> err.value.Failure? && !reliable
  {
    hide Inv, Remaining, Apply, CleanState;
    err := None;
    StartsWaiting(cfg, before, reliable);
    s := Apply(cfg, before, Begin);
    while s.waiting
      invariant Inv(cfg, s) && s.delivered == before.delivered && s.limit == before.limit
      invariant reliable ==> CleanState(s)
      invariant !s.waiting ==> s.cur.Buffer? && !s.cur.IsEmpty()
      decreases Remaining(cfg, s)
    {
      var step := Schedule(cfg, s, reliable);
      WaitingStep(cfg, s, step, reliable);
      if step.ReturnError? {
        err := s.cause;
        s := Apply(cfg, s, step);
        return;
      }
      s := Apply(cfg, s, step);
    }
  }

  lemma StartsWaiting(cfg: Config, s: State, reliable: bool)
    requires cfg.Valid() && Inv(cfg, s) && !s.waiting && s.limit > 0 && s.cur.IsEmpty()
    requires reliable ==> CleanState(s)
    ensures Enabled(cfg, s, Begin)
    ensures var s' := Apply(cfg, s, Begin);
            Inv(cfg, s') && s'.waiting && s'.delivered == s.delivered && s'.limit == s.limit && (reliable ==> CleanState(s'))
  {
    StepKeepsInv(cfg, s, Begin);
  }

  lemma WaitingStep(cfg: Config, s: State, step: Step, reliable: bool)
    requires cfg.Valid() && Inv(cfg, s) && s.waiting && Enabled(cfg, s, step)
    requires reliable ==> CleanState(s) && CleanStep(cfg, step)
    requires step.Cancel? ==> s.cause.None?
    requires !step.ReturnError? ==> Progresses(step)
    requires step.ReturnError? ==> s.cause.Some?
    ensures var s' := Apply(cfg, s, step);
            && Inv(cfg, s') && s'.delivered == s.delivered && s'.limit == s.limit
            && (reliable ==> CleanState(s'))
            && (step.ReturnError? ==> !s'.waiting && s.cause.Some? && s.cause.value.Failure?)
            && (!step.ReturnError? ==> 0 <= Remaining(cfg, s') < Remaining(cfg, s))
            && (!step.ReturnError? && !s'.waiting ==> s'.cur.Buffer? && !s'.cur.IsEmpty())
  {
    StepKeepsInv(cfg, s, step);
    if !step.ReturnError? {
      StepDecreases(cfg, s, step);
      ReceivedIsNonempty(cfg, s, step);
    }
    if reliable {
      CleanStepKeepsClean(cfg, s, step);
    }
  }

  /** Any of the readers. */
  datatype Reader = Memory(stream: ByteStream) | Sequential(tg: TgReader) | Parallel(multi: TgMultiReader) {
    function Obj(): object {
      match this
      case Memory(r) => r
      case Sequential(r) => r
      case Parallel(r) => r
    }

    ghost predicate Valid()
      reads Obj()
    {
      match this
      case Memory(r) => r.Valid()
      case Sequential(r) => r.Valid()
      case Parallel(r) => r.Valid()
    }

    /** The bytes still to come. */
    ghost function Owed(): seq<byte>
      reads Obj()
    {
      match this
      case Memory(r) => r.owed
      case Sequential(r) => r.owed
      case Parallel(r) => r.owed
    }

    /** No error other than the end of file will occur. */
    ghost predicate Reliable()
      reads Obj()
    {
      match this
      case Memory(r) => r.fin == Eof
      case Sequential(r) => r.reliable
      case Parallel(r) => r.reliable
    }

    method Read(size: nat) returns (data: seq<byte>, err: Option<Error>)
      requires Valid()
      modifies Obj()
      ensures Valid() && Reliable() == old(Reliable())
      ensures old(Owed()) == data + Owed() && |data| <= size
      ensures err == Some(Eof) ==> Owed() == []
      ensures err.None? && size > 0 ==> data != []
      ensures !Memory? ==> (err.None? ==> Owed() != []) && (old(Owed()) == [] ==> err == Some(Eof))
      ensures err.Some? && err.value != Eof ==> err.value.Failure? && !Reliable() && data == []
      ensures Memory? && err.Some? ==> err.value == stream.fin && Owed() == []
    {
      match this
      case Memory(r) => data, err := r.Read(size);
      case Sequential(r) => data, err := r.Read(size);
      case Parallel(r) => data, err := r.Read(size);
    }

    /** The kind of reader that a configuration asks for. */
    predicate IsFor(concurrency: int, threads: nat, buffers: nat) {
      match this
      case Memory(_) => false
      case Sequential(_) => concurrency < 2
      case Parallel(r) => concurrency >= 2 && r.cfg.threads == threads && r.cfg.buffers == buffers
    }

    /** No goroutine of a cancelled reader stays at work. */
    ghost predicate Cancelled()
      reads Obj()
    {
      Parallel? ==> multi.s.cause.Some?
    }

    method Close()
      requires Valid()
      modifies Obj()
      ensures Valid() && Owed() == old(Owed()) && Cancelled()
    {
      if Parallel? {
        multi.Close();
      }
    }

    /** Reads to the first error with non-empty buffers of arbitrary sizes. */
    method ReadAll() returns (all: seq<byte>, err: Error)
      requires Valid()
      modifies Obj()
      ensures Valid() && old(Owed()) == all + Owed()
      ensures err == Eof ==> all == old(Owed())
      ensures old(Reliable()) ==> err == Eof
    {
      hide *;
      all := [];
      while true
        invariant Valid() && old(Owed()) == all + Owed() && Reliable() == old(Reliable())
        decreases |Owed()|
      {
        var size: nat :| size > 0;
        var data, e := Read(size);
        all := all + data;
        if e.Some? {
          return all, e.value;
        }
      }
    }
  }

  /** Fills `buf[..hi]` as far as the reader goes. */
  method ReadFill(r: Reader, buf: array<byte>, hi: nat) returns (n: nat, err: Option<Error>)
    requires r.Valid() && hi <= buf.Length && buf != r.Obj()
    modifies r.Obj(), buf
    ensures r.Valid() && r.Reliable() == old(r.Reliable())
    ensures n <= hi && old(r.Owed()) == buf[..n] + r.Owed()
    ensures err.None? ==> n == hi
    ensures err == Some(Eof) ==> r.Owed() == []
    ensures err.Some? && err.value != Eof ==> err.value.Failure? && !r.Reliable() && n < hi
    ensures r.Memory? && err.Some? ==> err.value == r.stream.fin && r.Owed() == []
  {
    hide *;
    n, err := 0, None;
    while n < hi && err.None?
      invariant n <= hi && r.Valid() && r.Reliable() == old(r.Reliable())
      invariant old(r.Owed()) == buf[..n] + r.Owed()
      invariant err == Some(Eof) ==> r.Owed() == []
      invariant err.Some? && err.value != Eof ==> err.value.Failure? && !r.Reliable() && n < hi
      invariant r.Memory? && err.Some? ==> err.value == r.stream.fin && r.Owed() == []
      decreases hi - n, err.None?
    {
      ghost var filled, before := buf[..n], r.Owed();
      var data;
      data, err := r.Read(hi - n);
      ghost var after := r.Owed();
      assert filled + before == (filled + data) + after;
      forall i | 0 <= i < |data| {
        buf[n + i] := data[i];
      }
      assert buf[..n + |data|] == filled + data;
      assert r.Owed() == after;
      n := n + |data|;
    }
  }

  /** Refinement: over the same part and range, a parallel reader that is not cancelled delivers what
      the sequential one delivers, namely the range, whatever the interleaving and the buffer sizes. */
  method ParallelRefinesSequential(part: seq<byte>, start: nat, end: nat, threads: nat, buffers: nat)
    returns (parallel: seq<byte>, sequential: seq<byte>)
    requires start <= end < |part| && threads > 0
    ensures parallel == sequential == part[start..end + 1]
  {
    var multi := new TgMultiReader(part, start, end, threads, buffers, true);
    var e1, e2;
    parallel, e1 := Parallel(multi).ReadAll();
    var single := new TgReader(part, start, end, true);
    sequential, e2 := Sequential(single).ReadAll();
  }
}
