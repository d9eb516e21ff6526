/** The retry of requests, and the recovery wrapped around it. */
module Retry {
  import opened Bytes

  /** An error: an RPC error, any other one, or one that wraps another behind a prefix. An RPC error has a kind and
      possibly a number, as in FLOOD_WAIT_3; zero stands for no number. */
  datatype RpcFailure =
    | Rpc(code: int, kind: string, argument: nat)
    | Plain(what: string)
    | Wrapped(prefix: string, cause: RpcFailure)
  {
    /** The RPC error that the error is or wraps, if any. */
    function AsRpc(): (r: Option<RpcFailure>)
      ensures r.Some? ==> r.value.Rpc?
    {
      match this
      case Rpc(_, _, _) => Some(this)
      case Plain(_) => None
      case Wrapped(_, cause) => cause.AsRpc()
    }

    /** What remains without the wrapping. */
    function Core(): (r: RpcFailure)
      ensures !r.Wrapped? && AsRpc() == if r.Rpc? then Some(r) else None
    {
      if Wrapped? then cause.Core() else this
    }

    /** What the error prints. */
    function Text(): string {
      match this
      case Rpc(code, kind, argument) =>
        "rpc error code " + IntText(code) + ": " + kind + (if argument == 0 then "" else " (" + NatText(argument) + ")")
      case Plain(what) => what
      case Wrapped(prefix, cause) => prefix + ": " + cause.Text()
    }

    function Message(): string
      requires Rpc?
    {
      kind + if argument == 0 then "" else "_" + NatText(argument)
    }
  }

  function NatText(n: nat): string {
    if n < 10 then [DIGITS[n]] else NatText(n / 10) + [DIGITS[n % 10]]
  }

  function IntText(n: int): string {
    if n < 0 then "-" + NatText(-n) else NatText(n)
  }

  const DIGITS: string := "0123456789"

  datatype Request = UploadGetFile | ChannelsGetMessages | ChannelsGetChannels | OtherRequest

  const INTERNAL_ERRORS: seq<string> :=
    ["Timedout", "No workers running", "RPC_CALL_FAIL", "RPC_MCGET_FAIL", "WORKER_BUSY_TOO_LONG_RETRY",
     "memory limit exit", "connection dead", "engine was closed", "STORAGE_CHOOSE_VOLUME_FAILED"]

  /** `part` occurs in `s`. */
  predicate Occurs(part: string, s: string) {
    exists i :: 0 <= i <= |s| - |part| && OccursAt(part, s, i)
  }

  predicate OccursAt(part: string, s: string, i: int) {
    0 <= i <= |s| - |part| && s[i..i + |part|] == part
  }

  /** Some internal error occurs in the text. */
  predicate HasInternalError(text: string) {
    exists k :: 0 <= k < |INTERNAL_ERRORS| && Occurs(INTERNAL_ERRORS[k], text)
  }

  predicate IsErrorMatch(e: RpcFailure) {
    HasInternalError(e.Text())
  }

  /** -503 Timeout, wrapped or not. */
  predicate IsTimeout(e: RpcFailure) {
    e.AsRpc().Some? && e.AsRpc().value.code == -503 && e.AsRpc().value.Message() == "Timeout"
  }

  predicate IsReadTimeout(input: Request, e: RpcFailure) {
    IsTimeout(e) && !input.OtherRequest?
  }

  /** Whether a failed call is repeated: `configured` are the kinds of RPC errors given to the middleware, which
      adds the internal errors to them. */
  predicate IsRetried(configured: seq<string>, input: Request, e: RpcFailure) {
    || IsReadTimeout(input, e)
    || (e.AsRpc().Some? && e.AsRpc().value.kind in configured + INTERNAL_ERRORS)
    || IsErrorMatch(e)
  }

  lemma OccursInFront(part: string, a: string, rest: string, i: int)
    requires i + |part| <= |a|
    ensures OccursAt(part, a + rest, i) <==> OccursAt(part, a, i)
  {
    if 0 <= i {
      assert (a + rest)[i..i + |part|] == a[i..i + |part|];
    }
  }

  lemma OccursBehind(part: string, front: string, b: string, i: int)
    requires i >= |front|
    ensures OccursAt(part, front + b, i) <==> OccursAt(part, b, i - |front|)
  {
    var j := i - |front|;
    if j + |part| <= |b| {
      assert (front + b)[i..i + |part|] == b[j..j + |part|];
    }
  }

  /** Something without a colon, not beginning with a space, occurs in front of ": " or behind it. */
  lemma OccursInParts(part: string, a: string, b: string)
    requires part != "" && part[0] != ' ' && ':' !in part
    ensures Occurs(part, a + ": " + b) <==> Occurs(part, a) || Occurs(part, b)
  {
    hide OccursAt;
    var s, front, n := a + ": " + b, a + ": ", |part|;
    assert s == a + (": " + b) && |front| == |a| + 2;
    if Occurs(part, s) {
      var i :| 0 <= i <= |s| - n && OccursAt(part, s, i);
      ColonInside(part, a, b, i);
      if i < |a| {
        OccursInFront(part, a, ": " + b, i);
      } else {
        OccursBehind(part, front, b, i);
      }
    }
    if Occurs(part, a) {
      var i :| 0 <= i <= |a| - n && OccursAt(part, a, i);
      OccursInFront(part, a, ": " + b, i);
    }
    if Occurs(part, b) {
      var i :| 0 <= i <= |b| - n && OccursAt(part, b, i);
      OccursBehind(part, front, b, i + |front|);
    }
  }

  /** What occurs across the colon contains it. */
  lemma ColonInside(part: string, a: string, b: string, i: int)
    requires part != "" && OccursAt(part, a + ": " + b, i)
    ensures i <= |a| < i + |part| ==> ':' in part
    ensures i == |a| + 1 ==> part[0] == ' '
  {
    var s := a + ": " + b;
    assert s[|a|] == ':' && s[|a| + 1] == ' ';
    var slice := s[i..i + |part|];
    assert forall k | 0 <= k < |part| :: slice[k] == s[i + k];
    assert i <= |a| < i + |part| ==> slice[|a| - i] == ':';
  }

  lemma InternalErrorsAreSimple(k: nat)
    requires k < |INTERNAL_ERRORS|
    ensures INTERNAL_ERRORS[k] != "" && INTERNAL_ERRORS[k][0] != ' ' && ':' !in INTERNAL_ERRORS[k]
    ensures INTERNAL_ERRORS[k] != "Timeout"
  {
  }

  lemma InternalErrorInParts(a: string, b: string)
    ensures HasInternalError(a + ": " + b) <==> HasInternalError(a) || HasInternalError(b)
  {
    hide Occurs;
    forall k | 0 <= k < |INTERNAL_ERRORS|
      ensures Occurs(INTERNAL_ERRORS[k], a + ": " + b) <==> Occurs(INTERNAL_ERRORS[k], a) || Occurs(INTERNAL_ERRORS[k], b)
    {
      InternalErrorsAreSimple(k);
      OccursInParts(INTERNAL_ERRORS[k], a, b);
    }
  }

  /** Some internal error occurs in what a wrapper has put in front. */
  predicate PrefixesMatch(e: RpcFailure) {
    e.Wrapped? && (HasInternalError(e.prefix) || PrefixesMatch(e.cause))
  }

  /** The search in the printed text of a wrapped error is a search in its prefixes and in what they wrap. */
  lemma {:induction false} MatchIsInPieces(e: RpcFailure)
    ensures IsErrorMatch(e) <==> PrefixesMatch(e) || HasInternalError(e.Core().Text())
  {
    hide HasInternalError;
    if e.Wrapped? {
      InternalErrorInParts(e.prefix, e.cause.Text());
      MatchIsInPieces(e.cause);
    }
  }

  lemma ArgumentShows(e: RpcFailure)
    requires e.Rpc?
    ensures e.argument != 0 ==> '_' in e.Message()
    ensures e.argument == 0 ==> e.Message() == e.kind
  {
    if e.argument != 0 {
      assert e.Message()[|e.kind|] == '_';
    }
  }

  lemma TimeoutText()
    ensures Rpc(-503, "Timeout", 0).Text() == "rpc error code -503" + ": " + "Timeout"
  {
    assert NatText(5) == "5" && NatText(50) == "50" && NatText(503) == "503";
    assert "rpc error code " + IntText(-503) == "rpc error code -503";
  }

  lemma CodeIsNoInternalError()
    ensures !HasInternalError("rpc error code -503")
  {
    var text := "rpc error code -503";
    assert forall i | 0 <= i < |text| :: text[i] !in {'T', 'N', 'R', 'W', 'S', 'y', 'n'};
    forall k, i | 0 <= k < |INTERNAL_ERRORS| && 0 <= i <= |text| - |INTERNAL_ERRORS[k]|
      ensures !OccursAt(INTERNAL_ERRORS[k], text, i)
    {
      var part := INTERNAL_ERRORS[k];
      var j := ForeignTo(k);
      assert text[i..i + |part|][j] == text[i + j];
    }
  }

  /** Where an internal error has a letter that the text of a code has not. */
  function ForeignTo(k: nat): (j: nat)
    requires k < |INTERNAL_ERRORS|
    ensures j < |INTERNAL_ERRORS[k]| && INTERNAL_ERRORS[k][j] in {'T', 'N', 'R', 'W', 'S', 'y', 'n'}
  {
    if k == 5 then 5 else if k == 6 then 2 else if k == 7 then 1 else 0
  }

  /** The message is shorter than every internal error. */
  lemma MessageIsNoInternalError()
    ensures !HasInternalError("Timeout")
  {
  }

  /** A -503 Timeout of any other request than the three reads, wrapped in any way, is retried if and only if
      Timeout is configured, or a wrapper has put an internal error in front of it. */
  lemma WritesAreNotRetried(configured: seq<string>, input: Request, e: RpcFailure)
    requires input.OtherRequest? && IsTimeout(e)
    ensures IsRetried(configured, input, e) <==> "Timeout" in configured || PrefixesMatch(e)
  {
    hide HasInternalError, RpcFailure.Text;
    var rpc := e.Core();
    ArgumentShows(rpc);
    assert '_' !in "Timeout";
    assert rpc == Rpc(-503, "Timeout", 0);
    TimeoutText();
    InternalErrorInParts("rpc error code -503", "Timeout");
    CodeIsNoInternalError();
    MessageIsNoInternalError();
    MatchIsInPieces(e);
    forall k | 0 <= k < |INTERNAL_ERRORS|
      ensures INTERNAL_ERRORS[k] != "Timeout"
    {
      InternalErrorsAreSimple(k);
    }
  }

  /** Such a prefix, and the same error without one. */
  lemma WrappedTimeoutIsRetried()
    ensures var e := Rpc(-503, "Timeout", 0);
            IsRetried([], OtherRequest, Wrapped("connection dead", e)) && !IsRetried([], OtherRequest, e)
  {
    var e := Rpc(-503, "Timeout", 0);
    WritesAreNotRetried([], OtherRequest, e);
    WritesAreNotRetried([], OtherRequest, Wrapped("connection dead", e));
    assert OccursAt(INTERNAL_ERRORS[6], "connection dead", 0);
    assert Occurs(INTERNAL_ERRORS[6], "connection dead");
  }

  /** The context of a request: once it is done it stays done. */
  class Context {
    var done: bool

    constructor ()
    {
      done := false;
    }

    /** Time passes. */
    method Elapse()
      modifies this
      ensures old(done) ==> done
    {
      var ends: bool := *;
      done := done || ends;
    }
  }

  const CONTEXT_DONE := Plain("context done")

  /** One call of the next handler: it ends in any way. */
  method Invoke(ctx: Context) returns (r: Option<RpcFailure>)
    modifies ctx
    ensures old(ctx.done) ==> ctx.done
  {
    ctx.Elapse();
    r :| true;
  }

  type Calls = seq<Option<RpcFailure>>

  /** The call of one of the three reads that ended in -503 Timeout, wrapped or not. */
  predicate TimedOut(input: Request, call: Option<RpcFailure>) {
    && input in {UploadGetFile, ChannelsGetMessages, ChannelsGetChannels}
    && call.Some? && call.value.AsRpc() == Some(Rpc(-503, "Timeout", 0))
  }

  lemma ReadTimeoutIsTimedOut(input: Request, e: RpcFailure)
    ensures IsReadTimeout(input, e) <==> TimedOut(input, Some(e))
  {
    if e.AsRpc().Some? {
      ArgumentShows(e.AsRpc().value);
      assert '_' !in "Timeout";
    }
  }

  /** Which failures of a call are repeated: a read's -503 Timeout, every RPC error of a configured kind or of the kind of an
      internal error, every error in whose text an internal error occurs, and nothing else. */
  lemma RetriedFailures(configured: seq<string>, input: Request, e: RpcFailure)
    ensures TimedOut(input, Some(e)) ==> IsRetried(configured, input, e)
    ensures forall code, kind, n | e.AsRpc() == Some(Rpc(code, kind, n)) && (kind in configured || kind in INTERNAL_ERRORS) ::
              IsRetried(configured, input, e)
    ensures forall k | 0 <= k < |INTERNAL_ERRORS| && Occurs(INTERNAL_ERRORS[k], e.Text()) :: IsRetried(configured, input, e)
    ensures IsRetried(configured, input, e) && !TimedOut(input, Some(e)) ==>
              || (e.AsRpc().Some? && (e.AsRpc().value.kind in configured || e.AsRpc().value.kind in INTERNAL_ERRORS))
              || exists k :: 0 <= k < |INTERNAL_ERRORS| && Occurs(INTERNAL_ERRORS[k], e.Text())
  {
    ReadTimeoutIsTimedOut(input, e);
    hide RpcFailure.Text, Occurs;
  }

  /** What occurs is a part, and the other way round. */
  lemma OccursIsPart(part: string, s: string) returns (a: string, b: string)
    ensures Occurs(part, s) ==> s == a + part + b
    ensures forall x, y | s == x + part + y :: Occurs(part, s)
  {
    a, b := "", "";
    if Occurs(part, s) {
      var i :| 0 <= i <= |s| - |part| && OccursAt(part, s, i);
      a, b := s[..i], s[i + |part|..];
    }
    forall x, y | s == x + part + y
      ensures Occurs(part, s)
    {
      assert OccursAt(part, s, |x|);
    }
  }

  lemma TimedOutIsRetried(configured: seq<string>, input: Request, e: RpcFailure)
    requires TimedOut(input, Some(e))
    ensures IsRetried(configured, input, e)
  {
    ReadTimeoutIsTimedOut(input, e);
  }

  /** The number of the first call that ended in a read timeout, counted from one; zero if none did. */
  function FirstTimeout(input: Request, calls: Calls): (n: nat)
    ensures n <= |calls|
  {
    if calls == [] then 0
    else if FirstTimeout(input, calls[..|calls| - 1]) > 0 then FirstTimeout(input, calls[..|calls| - 1])
    else if TimedOut(input, calls[|calls| - 1]) then |calls| else 0
  }

  lemma {:induction false} FirstTimeoutIsFirst(input: Request, calls: Calls)
    ensures var n := FirstTimeout(input, calls);
            && (n > 0 ==> TimedOut(input, calls[n - 1]))
            && (forall k | 0 <= k < (if n > 0 then n - 1 else |calls|) :: !TimedOut(input, calls[k]))
  {
    hide TimedOut;
    if calls != [] {
      FirstTimeoutIsFirst(input, calls[..|calls| - 1]);
    }
  }

  /** What the sequence of calls may be: within the budget, and only failures that are retried before the last. */
  ghost predicate WithinBudget(max: int, configured: seq<string>, input: Request, calls: Calls) {
    && |calls| <= Max(max, 0)
    && (FirstTimeout(input, calls) > 0 ==> |calls| <= Max(FirstTimeout(input, calls), 3))
    && (forall k | 0 <= k < |calls| - 1 :: calls[k].Some? && IsRetried(configured, input, calls[k].value))
  }

  /** How many calls the sequence is allowed: a read timeout lowers the limit to three from then on. */
  function Budget(limit: int, input: Request, calls: Calls): int {
    if FirstTimeout(input, calls) > 0 then Max(FirstTimeout(input, calls), Min(limit, 3)) else limit
  }

  /** A failure that would be retried is only returned once the budget is used up. */
  ghost predicate Persistent(limit: int, configured: seq<string>, input: Request, calls: Calls, r: Option<RpcFailure>) {
    r != Some(CONTEXT_DONE) && calls != [] && calls[|calls| - 1].Some? && IsRetried(configured, input, calls[|calls| - 1].value)
    ==> |calls| == Budget(limit, input, calls)
  }

  /** How the result follows from the last call: success, the wrapped error of the last call, or the end of the context. */
  ghost predicate Concludes(max: int, calls: Calls, r: Option<RpcFailure>, done: bool) {
    || (r == Some(CONTEXT_DONE) && done)
    || (calls == [] && max <= 0 && r.Some? && r.value.Core() == Plain("retry limit reached"))
    || (calls != [] && calls[|calls| - 1].None? && r.None?)
    || (calls != [] && calls[|calls| - 1].Some? && r.Some? && r.value.Core() == calls[|calls| - 1].value.Core())
  }

  /** A timeout that must not be repeated, because the request may have written something. */
  predicate IsWriteTimeout(configured: seq<string>, input: Request, call: Option<RpcFailure>) {
    call.Some? && input.OtherRequest? && IsTimeout(call.value) && "Timeout" !in configured && !PrefixesMatch(call.value)
  }

  method Handle(ctx: Context, limit: int, configured: seq<string>, input: Request)
    returns (r: Option<RpcFailure>, ghost calls: Calls)
    modifies ctx
    ensures old(ctx.done) ==> ctx.done
    ensures WithinBudget(limit, configured, input, calls) && Concludes(limit, calls, r, ctx.done)
    ensures Persistent(limit, configured, input, calls, r)
    ensures forall k | 0 <= k < |calls| && IsWriteTimeout(configured, input, calls[k]) :: k == |calls| - 1
  {
    hide IsRetried, IsReadTimeout, IsWriteTimeout, FirstTimeout, TimedOut;
    var retries, max := 0, limit;
    var lastErr: Option<RpcFailure> := None;
    calls := [];
    NoCalls(limit, configured, input);
    while retries < max
      invariant 0 <= retries == |calls| && max <= limit && WithinBudget(limit, configured, input, calls)
      invariant max == if FirstTimeout(input, calls) > 0 then Min(limit, 3) else limit
      invariant calls == [] ==> lastErr.None?
      invariant calls != [] ==> lastErr.Some? && calls[|calls| - 1] == lastErr && IsRetried(configured, input, lastErr.value)
      invariant calls != [] ==> retries < max
      invariant forall k | 0 <= k < |calls| :: !IsWriteTimeout(configured, input, calls[k])
      invariant old(ctx.done) ==> ctx.done
      decreases limit - retries
    {
      if ctx.done {
        return Some(CONTEXT_DONE), calls;
      }
      var err := Invoke(ctx);
      BudgetStep(limit, configured, input, calls, err);
      SuccessIsNoTimeout(configured, input);
      calls := calls + [err];
      if err.None? {
        return None, calls;
      }
      Judged(configured, input, err.value);
      var readTimeout := IsReadTimeout(input, err.value);
      if readTimeout {
        max := Min(max, 3);
      }
      if !IsRetried(configured, input, err.value) {
        return Some(Wrapped("retry middleware skip", err.value)), calls;
      }
      lastErr := err;
      retries := retries + 1;
      if retries >= max {
        break;
      }
      ctx.Elapse();
      if ctx.done {
        return Some(CONTEXT_DONE), calls;
      }
    }
    r := Some(if lastErr.Some? then Wrapped("retry limit reached", lastErr.value) else Plain("retry limit reached"));
  }

  /** What the contract of Handle means for a read: its timeout ends the calls only if the context is done, the limit is
      reached, or it is call number three or later, and not before the first timeout. */
  lemma LastTimeout(limit: int, configured: seq<string>, input: Request, calls: Calls, r: Option<RpcFailure>, done: bool)
    requires WithinBudget(limit, configured, input, calls) && Concludes(limit, calls, r, done)
    requires Persistent(limit, configured, input, calls, r)
    requires calls != [] && TimedOut(input, calls[|calls| - 1])
    ensures done || |calls| == limit || |calls| == Max(FirstTimeout(input, calls), 3)
  {
    TimedOutIsRetried(configured, input, calls[|calls| - 1].value);
    FirstTimeoutIsFirst(input, calls);
    hide IsRetried, FirstTimeout;
  }

  lemma NoCalls(limit: int, configured: seq<string>, input: Request)
    ensures WithinBudget(limit, configured, input, []) && FirstTimeout(input, []) == 0
  {
  }

  lemma NotAWriteTimeout(configured: seq<string>, input: Request, e: RpcFailure)
    requires IsRetried(configured, input, e)
    ensures !IsWriteTimeout(configured, input, Some(e))
  {
    hide IsRetried, PrefixesMatch;
    if input.OtherRequest? && IsTimeout(e) {
      WritesAreNotRetried(configured, input, e);
    }
  }

  lemma Judged(configured: seq<string>, input: Request, e: RpcFailure)
    ensures IsReadTimeout(input, e) <==> TimedOut(input, Some(e))
    ensures IsReadTimeout(input, e) ==> IsRetried(configured, input, e)
    ensures IsRetried(configured, input, e) ==> !IsWriteTimeout(configured, input, Some(e))
  {
    ReadTimeoutIsTimedOut(input, e);
    if IsRetried(configured, input, e) {
      NotAWriteTimeout(configured, input, e);
    }
  }

  lemma SuccessIsNoTimeout(configured: seq<string>, input: Request)
    ensures !TimedOut(input, None) && !IsWriteTimeout(configured, input, None)
  {
  }

  /** One call more stays within the budget. */
  lemma BudgetStep(limit: int, configured: seq<string>, input: Request, calls: Calls, err: Option<RpcFailure>)
    requires WithinBudget(limit, configured, input, calls) && |calls| < limit
    requires FirstTimeout(input, calls) > 0 ==> |calls| < 3
    requires calls != [] ==> calls[|calls| - 1].Some? && IsRetried(configured, input, calls[|calls| - 1].value)
    ensures WithinBudget(limit, configured, input, calls + [err])
    ensures FirstTimeout(input, calls + [err])
            == if FirstTimeout(input, calls) > 0 then FirstTimeout(input, calls)
               else if TimedOut(input, err) then |calls| + 1 else 0
  {
    hide IsRetried, TimedOut;
    var more := calls + [err];
    assert more[..|more| - 1] == calls;
    forall k | 0 <= k < |more| - 1
      ensures more[k].Some? && IsRetried(configured, input, more[k].value)
    {
      assert more[k] == calls[k];
    }
  }

  /** Whether recovery makes another attempt: never for RPC errors, never once the context is done. */
  predicate ShouldRecover(done: bool, e: RpcFailure) {
    !done && e.AsRpc().None?
  }

  /** The round ended in a failure that is no RPC error. */
  predicate EndsWithoutRpc(limit: int, calls: Calls) {
    if calls == [] then limit <= 0 else calls[|calls| - 1].Some? && calls[|calls| - 1].value.AsRpc().None?
  }

  /** recovery around retry: `pauses` is how often the backoff is willing to wait. Another round of calls only
      follows a round that ended in a failure which is no RPC error; an RPC error ends the whole request, with
      the same cause (or, when the context ends at that moment, with the error of the context). A timeout of a
      request that may have written something is thus the last call of all. */
  method HandleRecovering(ctx: Context, limit: int, configured: seq<string>, input: Request, pauses: nat)
    returns (r: Option<RpcFailure>, ghost rounds: seq<Calls>)
    modifies ctx
    ensures rounds != [] && |rounds| <= pauses + 1
    ensures forall k | 0 <= k < |rounds| :: WithinBudget(limit, configured, input, rounds[k])
    ensures forall k | 0 <= k < |rounds| - 1 :: EndsWithoutRpc(limit, rounds[k])
    ensures EndsWithoutRpc(limit, rounds[|rounds| - 1]) ==> r.Some? && r.value.AsRpc().None? && (ctx.done || |rounds| == pauses + 1)
    ensures Concludes(limit, rounds[|rounds| - 1], r, ctx.done)
    ensures r.Some? && r.value.AsRpc().None? && !ctx.done ==> r.value.Wrapped? && r.value.prefix == "recover"
    ensures forall k, j | 0 <= k < |rounds| && 0 <= j < |rounds[k]| && IsWriteTimeout(configured, input, rounds[k][j]) ::
              k == |rounds| - 1 && j == |rounds[k]| - 1
  {
    hide WithinBudget, IsWriteTimeout;
    rounds := [];
    var left := pauses;
    while true
      invariant |rounds| == pauses - left
      invariant forall k | 0 <= k < |rounds| :: WithinBudget(limit, configured, input, rounds[k]) && EndsWithoutRpc(limit, rounds[k])
      invariant forall k, j | 0 <= k < |rounds| && 0 <= j < |rounds[k]| :: !IsWriteTimeout(configured, input, rounds[k][j])
      decreases left
    {
      ghost var calls;
      r, calls := Handle(ctx, limit, configured, input);
      rounds := rounds + [calls];
      if r.None? {
        return;
      }
      if !ShouldRecover(ctx.done, r.value) {
        return;
      }
      WriteTimeoutIsRpc(configured, input, limit, calls);
      r := Some(Wrapped("recover", r.value));
      if left == 0 || ctx.done {
        return;
      }
      ctx.Elapse();
      if ctx.done {
        return Some(CONTEXT_DONE), rounds;
      }
      left := left - 1;
    }
  }

  lemma WriteTimeoutIsRpc(configured: seq<string>, input: Request, limit: int, calls: Calls)
    ensures calls != [] && IsWriteTimeout(configured, input, calls[|calls| - 1]) ==> !EndsWithoutRpc(limit, calls)
  {
  }
}
