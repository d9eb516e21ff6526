/** The rotation of upload bots: a round-robin cursor that passes over blocked bots, and the upload
    that tries every bot, waits for the shortest block to end and starts over. */
module BotRotation {
  import opened Bytes

  type Token = string
  type User = nat

  /** `blocked` maps tokens to the times at which they are free again. */
  predicate StillBlocked(blocked: map<Token, nat>, token: Token, time: nat) {
    token in blocked && time < blocked[token]
  }

  /** The proxy that a bot is reached through; the empty string stands for a direct connection. */
  function ProxyOf(enabled: bool, botProxy: map<Token, string>, token: Token): string {
    if enabled && token in botProxy then botProxy[token] else ""
  }

  /** What lies outside: the wall clock, which never goes back, and the attempts that were made. */
  class Outside {
    var now: nat
    ghost var made: seq<Try>

    constructor ()
      ensures made == []
    {
      now, made := 0, [];
    }

    method Now() returns (t: nat)
      modifies this`now
      ensures t == now >= old(now)
    {
      var elapsed: nat :| true;
      now := now + elapsed;
      t := now;
    }

    method Sleep(d: nat)
      modifies this`now
      ensures now >= old(now) + d
    {
      now := now + d;
    }
  }

  class BotWorker {
    const clock: Outside
    const proxyEnabled: bool
    var bots: map<User, seq<Token>>
    var currIdx: map<User, nat>
    var blocked: map<Token, nat>    // bot token to the time at which it is free again
    var botProxy: map<Token, string>

    ghost predicate Valid()
      reads this`bots, this`currIdx
    {
      && bots.Keys == currIdx.Keys
      && forall u | u in bots :: currIdx[u] < |Rotation(bots[u])|
    }

    constructor (clock: Outside, proxyEnabled: bool)
      ensures Valid() && this.clock == clock && this.proxyEnabled == proxyEnabled
      ensures bots == map[] && blocked == map[] && botProxy == map[]
      ensures forall token, time: nat :: !StillBlocked(blocked, token, time)
    {
      this.clock, this.proxyEnabled := clock, proxyEnabled;
      bots, currIdx, blocked, botProxy := map[], map[], map[], map[];
    }

    /** The bots of a user are set once. */
    method Set(tokens: seq<Token>, user: User)
      requires Valid()
      modifies this`bots, this`currIdx
      ensures Valid()
      ensures bots == (if user in old(bots) then old(bots) else old(bots)[user := tokens])
      ensures currIdx == (if user in old(bots) then old(currIdx) else old(currIdx)[user := 0])
    {
      if user in bots {
        return;
      }
      bots, currIdx := bots[user := tokens], currIdx[user := 0];
    }

    /** The same, and the proxies of the given bots are updated in any case. */
    method SetWithProxies(tokens: seq<Token>, proxies: map<Token, string>, user: User)
      requires Valid()
      modifies this`bots, this`currIdx, this`botProxy
      ensures Valid()
      ensures bots == (if user in old(bots) then old(bots) else old(bots)[user := tokens])
      ensures currIdx == (if user in old(bots) then old(currIdx) else old(currIdx)[user := 0])
      ensures forall t :: t in botProxy <==> t in old(botProxy) || (t in tokens && t in proxies)
      ensures forall t | t in botProxy :: botProxy[t] == if t in tokens && t in proxies then proxies[t] else old(botProxy)[t]
    {
      for i := 0 to |tokens|
        invariant bots == old(bots) && currIdx == old(currIdx)
        invariant forall t :: t in botProxy <==> t in old(botProxy) || (t in tokens[..i] && t in proxies)
        invariant forall t | t in botProxy :: botProxy[t] == if t in tokens[..i] && t in proxies then proxies[t] else old(botProxy)[t]
      {
        assert forall t :: t in tokens[..i + 1] <==> t in tokens[..i] || t == tokens[i];
        if tokens[i] in proxies {
          botProxy := botProxy[tokens[i] := proxies[tokens[i]]];
        }
      }
      assert tokens[..|tokens|] == tokens;
      Set(tokens, user);
    }

    method GetProxy(token: Token) returns (url: string)
      ensures url == ProxyOf(proxyEnabled, botProxy, token)
    {
      url := if proxyEnabled && token in botProxy then botProxy[token] else "";
    }

    method MarkBlocked(token: Token, duration: nat) returns (ghost at: nat)
      modifies this`blocked, clock`now
      ensures old(clock.now) <= at <= clock.now && blocked == old(blocked)[token := at + duration]
      ensures forall time: nat :: StillBlocked(blocked, token, time) <==> time < at + duration
      ensures forall other, time: nat | other != token :: StillBlocked(blocked, other, time) <==> StillBlocked(old(blocked), other, time)
    {
      var now := clock.Now();
      at := now;
      blocked := blocked[token := now + duration];
    }

    method IsBlocked(token: Token) returns (b: bool)
      modifies clock`now
      ensures clock.now >= old(clock.now) && b == StillBlocked(blocked, token, clock.now)
      ensures b <==> token in blocked && clock.now < blocked[token]
    {
      var now := clock.Now();
      b := token in blocked && now < blocked[token];
    }

    /** The next bot of a user in round-robin order that is not blocked; when all are, the next one all the same. */
    method Next(user: User) returns (token: Token, index: int, ghost passed: nat)
      requires Valid()
      modifies this`currIdx, clock`now
      ensures Valid() && clock.now >= old(clock.now)
      ensures user !in bots ==> token == "" && index == -1 && currIdx == old(currIdx)
      ensures user in bots ==>
        && currIdx == old(currIdx)[user := currIdx[user]]
        && IsServed(bots[user], old(currIdx)[user], currIdx[user], token, index, passed, blocked, old(clock.now), clock.now)
    {
      hide Wrap, Modulo, StillBlocked, At, IsNext, Passed, IsServed;
      passed := 0;
      if user !in bots || |bots[user]| == 0 {
        if user in bots {
          NoBotsServed(currIdx[user], blocked, clock.now);
          assert currIdx == currIdx[user := 0];
        }
        return "", -1, 0;
      }
      var all, startIdx := bots[user], currIdx[user];
      NothingPassed(all, startIdx, blocked, clock.now);
      for i := 0 to |all|
        invariant currIdx == old(currIdx) && clock.now >= old(clock.now)
        invariant Passed(all, startIdx, i, blocked, old(clock.now))
      {
        index := Modulo(startIdx + i, |all|);
        var candidate := all[index];
        var isBlocked := IsBlocked(candidate);
        if !isBlocked {
          FreeOneServed(all, startIdx, i, blocked, old(clock.now), clock.now);
          currIdx := currIdx[user := Modulo(index + 1, |all|)];
          return candidate, index, i;
        }
        PassedOne(all, startIdx, i, blocked, old(clock.now), clock.now);
      }
      FirstServed(all, startIdx, blocked, old(clock.now), clock.now);
      index := startIdx;
      currIdx := currIdx[user := Modulo(index + 1, |all|)];
      token := all[index];
    }
  }

  /** A bot that was just told to wait is not given out before its wait is over, as long as another bot is free. */
  method MarkThenNext(worker: BotWorker, user: User, token: Token, duration: nat, ghost free: Token)
    returns (next: Token, ghost at: nat)
    requires worker.Valid() && user in worker.bots && free in worker.bots[user] && free != token
    requires free !in worker.blocked
    modifies worker`blocked, worker`currIdx, worker.clock
    ensures old(worker.clock.now) <= at <= worker.clock.now
    ensures next in worker.bots[user] && (worker.clock.now < at + duration ==> next != token)
    ensures next in worker.blocked ==> worker.clock.now >= worker.blocked[next]
  {
    at := worker.MarkBlocked(token, duration);
    var index;
    ghost var passed;
    next, index, passed := worker.Next(user);
  }

  /** What a turn gives and leaves: `passed` bots lie between the cursor and the bot `token`, and each was blocked when
      it was passed; the cursor moves behind that bot. It is free, or it is the first of a list all of which are blocked. */
  ghost predicate IsServed(list: seq<Token>, cursor: nat, next: nat, token: Token, index: int, passed: nat,
                           blocked: map<Token, nat>, before: nat, now: nat) {
    var all := Rotation(list);
    && IsNext(all, cursor, passed, token, blocked, before)
    && next == Wrap(Wrap(cursor + passed, |all|) + 1, |all|)
    && (!StillBlocked(blocked, token, now) || (passed == 0 && forall t | t in all :: StillBlocked(blocked, t, before)))
    && index == if list == [] then -1 else Wrap(cursor + passed, |list|)
  }

  lemma NoBotsServed(cursor: nat, blocked: map<Token, nat>, now: nat)
    requires cursor < 1
    ensures IsServed([], cursor, cursor, "", -1, 0, blocked, now, now) && cursor == 0
  {
  }

  lemma FreeOneServed(all: seq<Token>, cursor: nat, n: nat, blocked: map<Token, nat>, before: nat, now: nat)
    requires n < |all| && Passed(all, cursor, n, blocked, before)
    requires !StillBlocked(blocked, all[Wrap(cursor + n, |all|)], now)
    ensures var i := Wrap(cursor + n, |all|); IsServed(all, cursor, Wrap(i + 1, |all|), all[i], i, n, blocked, before, now)
  {
    hide StillBlocked;
  }

  lemma FirstServed(all: seq<Token>, cursor: nat, blocked: map<Token, nat>, before: nat, now: nat)
    requires all != [] && Passed(all, cursor, |all|, blocked, before)
    ensures IsServed(all, cursor, Wrap(cursor + 1, |all|), all[cursor], cursor, 0, blocked, before, now)
  {
    hide StillBlocked;
    RoundCoversAll(all, cursor);
  }

  /** The list that the cursor goes through; without any bots, every turn gives the empty token. */
  function Rotation(bots: seq<Token>): (r: seq<Token>)
    ensures r != []
  {
    if bots == [] then [""] else bots
  }

  /** The index behind `n - 1` is 0. */
  function Wrap(x: nat, n: nat): nat
    requires x < 2 * n
  {
    if x >= n then x - n else x
  }

  function Modulo(x: nat, n: nat): (r: nat)
    requires x < 2 * n
    ensures r == Wrap(x, n) < n
  {
    ModuloWraps(x, n);
    x % n
  }

  lemma ModuloWraps(x: nat, n: nat)
    requires x < 2 * n
    ensures x % n == Wrap(x, n) < n
  {
    assert x >= n ==> x == n + (x - n);
  }

  /** The bot `j` places behind the cursor. */
  function At(all: seq<Token>, cursor: nat, j: nat): Token
    requires cursor < |all| && j < |all|
  {
    all[Wrap(cursor + j, |all|)]
  }

  /** The bot `passed` places behind the cursor, when those between are blocked. */
  ghost predicate IsNext(all: seq<Token>, cursor: nat, passed: nat, token: Token, blocked: map<Token, nat>, now: nat) {
    && cursor < |all| && passed < |all| && token == At(all, cursor, passed) && token in all
    && forall j: nat | j < passed :: StillBlocked(blocked, At(all, cursor, j), now)
  }

  /** The `n` bots from the cursor on are blocked. */
  ghost predicate Passed(all: seq<Token>, cursor: nat, n: nat, blocked: map<Token, nat>, now: nat) {
    cursor < |all| && n <= |all| && forall j: nat | j < n :: StillBlocked(blocked, At(all, cursor, j), now)
  }

  lemma NothingPassed(all: seq<Token>, cursor: nat, blocked: map<Token, nat>, now: nat)
    requires cursor < |all|
    ensures Passed(all, cursor, 0, blocked, now)
  {
  }

  lemma PassedOne(all: seq<Token>, cursor: nat, n: nat, blocked: map<Token, nat>, before: nat, now: nat)
    requires Passed(all, cursor, n, blocked, before) && n < |all| && before <= now
    requires StillBlocked(blocked, all[Wrap(cursor + n, |all|)], now)
    ensures Passed(all, cursor, n + 1, blocked, before)
  {
  }

  /** From any cursor position on, one round visits every bot. */
  lemma RoundCoversAll(all: seq<Token>, cursor: nat)
    requires cursor < |all|
    ensures forall t | t in all :: exists j: nat :: j < |all| && At(all, cursor, j) == t
  {
    forall t | t in all
      ensures exists j: nat :: j < |all| && At(all, cursor, j) == t
    {
      var p :| 0 <= p < |all| && all[p] == t;
      var j := if p >= cursor then p - cursor else p - cursor + |all|;
      assert At(all, cursor, j) == t;
    }
  }

  /** How an attempt with one bot ends, whether while its client is created or during the upload. */
  datatype Outcome = Success(part: nat) | Unregistered | FloodWait(wait: nat) | Fatal(code: nat) {
    predicate Final() {
      Success? || Fatal?
    }
  }

  datatype Try = Try(token: Token, proxy: string, outcome: Outcome)

  /** How things stand when a cycle begins: the worker's list, the cursor, the blocks and the time. */
  datatype Opening = Opening(all: seq<Token>, cursor: nat, blocked: map<Token, nat>, start: nat) {
    predicate Valid() {
      cursor < |all|
    }

    function Free(): set<Token> {
      FreeBots(all, blocked, start)
    }

    /** No block of a listed bot has run out by `now`. */
    ghost predicate Quiet(now: nat) {
      forall t | t in all && StillBlocked(blocked, t, start) :: StillBlocked(blocked, t, now)
    }

    /** No bot is listed twice. */
    predicate Distinct() {
      forall i, j | 0 <= i < j < |all| :: all[i] != all[j]
    }
  }

  /** History of one cycle: the wait before it, how it began, the attempts in order, the time of its end. */
  datatype Cycle = Cycle(waited: nat, opening: Opening, tries: seq<Try>, end: nat) {
    function Last(): Outcome {
      LastOutcome(tries)
    }
  }

  datatype Response = Uploaded(part: nat) | Error(outcome: Outcome) | RetryAfter(wait: nat) | UploadFailed

  const MAX_WAIT_CYCLES := 3

  function Tokens(tries: seq<Try>): set<Token> {
    set i | 0 <= i < |tries| :: tries[i].token
  }

  /** The running minimum that the loop keeps of the flood waits; a wait of zero resets it. */
  function MinWait(tries: seq<Try>): nat {
    if tries == [] then 0 else
      var min, last := MinWait(tries[..|tries| - 1]), tries[|tries| - 1].outcome;
      if last.FloodWait? && (min == 0 || last.wait < min) then last.wait else min
  }

  lemma MinWaitStep(tries: seq<Try>, t: Try)
    ensures MinWait(tries + [t]) == if t.outcome.FloodWait? && (MinWait(tries) == 0 || t.outcome.wait < MinWait(tries))
                                    then t.outcome.wait else MinWait(tries)
  {
    assert (tries + [t])[..|tries|] == tries;
  }

  /** The running minimum is the least flood wait behind the last flood wait of zero: it is one of them,
      none of them is smaller, and it is zero only if there is none. For positive waits it is their minimum. */
  lemma {:induction false} MinWaitIsMinimum(tries: seq<Try>) returns (from: nat)
    ensures from <= |tries|
    ensures from > 0 ==> tries[from - 1].outcome == FloodWait(0)
    ensures forall i | from <= i < |tries| && tries[i].outcome.FloodWait? :: 0 < MinWait(tries) <= tries[i].outcome.wait
    ensures MinWait(tries) > 0 ==> exists i :: from <= i < |tries| && tries[i].outcome == FloodWait(MinWait(tries))
  {
    if tries == [] {
      from := 0;
    } else {
      var n := |tries| - 1;
      var before := tries[..n];
      from := MinWaitIsMinimum(before);
      if MinWait(before) > 0 {
        var i :| from <= i < n && before[i].outcome == FloodWait(MinWait(before));
        assert tries[i] == before[i];
      }
      assert forall i | from <= i < n :: tries[i] == before[i];
      if tries[n].outcome == FloodWait(0) {
        from := n + 1;
      } else if tries[n].outcome.FloodWait? && MinWait(tries) == tries[n].outcome.wait {
        assert tries[n].outcome == FloodWait(MinWait(tries));
      }
    }
  }

  /** No bot is tried twice, and only the last attempt may end the upload. */
  ghost predicate WellFormed(tries: seq<Try>) {
    && (forall i, j | 0 <= i < j < |tries| :: tries[i].token != tries[j].token)
    && (forall i | 0 <= i < |tries| - 1 :: !tries[i].outcome.Final())
  }

  /** The tries so far, when the cursor has moved on by `moved` places since the cycle began. */
  ghost predicate Covered(all: seq<Token>, cursor: nat, free: set<Token>, tries: seq<Try>, moved: nat)
    requires cursor < |all|
  {
    forall j: nat | j < moved && j < |all| :: At(all, cursor, j) in free ==> At(all, cursor, j) in Tokens(tries)
  }

  /** Bots that are not tried yet are blocked exactly as they were when the cycle began. */
  ghost predicate Untouched(was: map<Token, nat>, blocked: map<Token, nat>, tries: seq<Try>) {
    forall t | t !in Tokens(tries) :: (t in blocked <==> t in was) && (t in was ==> blocked[t] == was[t])
  }

  /** Every bot that had to wait for flood control is free again as soon as its wait is over. */
  ghost predicate Timed(blocked: map<Token, nat>, now: nat, tries: seq<Try>) {
    forall i | 0 <= i < |tries| && tries[i].outcome.FloodWait? ::
      tries[i].token in blocked ==> blocked[tries[i].token] <= now + tries[i].outcome.wait
  }

  lemma TryExtends(tries: seq<Try>, t: Try)
    requires WellFormed(tries) && t.token !in Tokens(tries)
    requires forall i | 0 <= i < |tries| :: !tries[i].outcome.Final()
    ensures WellFormed(tries + [t]) && Tokens(tries + [t]) == Tokens(tries) + {t.token}
    ensures MinWait(tries + [t]) == if t.outcome.FloodWait? && (MinWait(tries) == 0 || t.outcome.wait < MinWait(tries))
                                    then t.outcome.wait else MinWait(tries)
  {
    var more := tries + [t];
    MinWaitStep(tries, t);
    forall x
      ensures x in Tokens(more) <==> x in Tokens(tries) + {t.token}
    {
      if x in Tokens(tries) {
        var i :| 0 <= i < |tries| && tries[i].token == x;
        assert more[i].token == x;
      }
      assert more[|tries|].token == t.token;
      if x in Tokens(more) {
        var i :| 0 <= i < |more| && more[i].token == x;
        assert i < |tries| ==> tries[i].token == x;
      }
    }
    forall i, j | 0 <= i < j < |more|
      ensures more[i].token != more[j].token
    {
      assert tries[i].token in Tokens(tries);
    }
  }

  /** The next bot in turn is tried, or it was tried before; all that were passed over were blocked. */
  lemma NextCovers(all: seq<Token>, cursor: nat, free: set<Token>, was: map<Token, nat>, start: nat, blocked: map<Token, nat>,
                   now: nat, tries: seq<Try>, moved: nat, place: nat, passed: nat, token: Token, tries': seq<Try>)
    requires cursor < |all| && Covered(all, cursor, free, tries, moved) && Untouched(was, blocked, tries)
    requires free == FreeBots(all, was, start) && start <= now && passed < |all|
    requires moved < |all| ==>
               place == Wrap(cursor + moved, |all|) && IsNext(all, place, passed, token, blocked, now)
    requires token in Tokens(tries') && Tokens(tries) <= Tokens(tries')
    ensures Covered(all, cursor, free, tries', moved + passed + 1)
  {
    forall j: nat | j < moved + passed + 1 && j < |all| && At(all, cursor, j) in free
      ensures At(all, cursor, j) in Tokens(tries')
    {
      if j >= moved {
        WrapTwice(all, cursor, moved, j - moved);
      }
    }
  }

  lemma WrapTwice(all: seq<Token>, cursor: nat, moved: nat, j: nat)
    requires cursor < |all| && moved + j < |all|
    ensures At(all, Wrap(cursor + moved, |all|), j) == At(all, cursor, moved + j)
  {
  }

  lemma CursorMoves(cursor: nat, moved: nat, passed: nat, n: nat)
    requires cursor < n && moved + passed + 1 < n
    ensures Wrap(Wrap(Wrap(cursor + moved, n) + passed, n) + 1, n) == Wrap(cursor + moved + passed + 1, n)
  {
  }

  function SetOf(all: seq<Token>): set<Token> {
    set t | t in all
  }

  function FreeBots(all: seq<Token>, blocked: map<Token, nat>, now: nat): set<Token> {
    set t | t in all && !StillBlocked(blocked, t, now)
  }

  /** One attempt with one bot, through its proxy. It takes time and ends in any way. */
  method DoUpload(clock: Outside, token: Token, proxy: string) returns (outcome: Outcome)
    modifies clock
    ensures clock.now >= old(clock.now)
    ensures clock.made == old(clock.made) + [Try(token, proxy, outcome)]
  {
    var t := clock.Now();
    outcome :| true;
    clock.made := clock.made + [Try(token, proxy, outcome)];
  }

  /** After an attempt, the bot in question may be blocked for the time it was told to wait. */
  lemma BlocksExtend(was: map<Token, nat>, blocked: map<Token, nat>, now: nat, tries: seq<Try>, t: Try,
                     blocked': map<Token, nat>, at: nat, now': nat)
    requires Untouched(was, blocked, tries) && Timed(blocked, now, tries) && now <= now' && at <= now'
    requires t.token !in Tokens(tries) && Tokens(tries + [t]) == Tokens(tries) + {t.token}
    requires blocked' == if t.outcome.FloodWait? then blocked[t.token := at + t.outcome.wait] else blocked
    ensures Untouched(was, blocked', tries + [t]) && Timed(blocked', now', tries + [t])
  {
    var more := tries + [t];
    forall i | 0 <= i < |more| && more[i].outcome.FloodWait? && more[i].token in blocked'
      ensures blocked'[more[i].token] <= now' + more[i].outcome.wait
    {
      if i < |tries| {
        assert more[i] == tries[i] && tries[i].token in Tokens(tries);
      }
    }
  }

  lemma TimedLater(blocked: map<Token, nat>, now: nat, now': nat, tries: seq<Try>)
    requires Timed(blocked, now, tries) && now <= now'
    ensures Timed(blocked, now', tries)
  {
  }

  /** Every bot tried lies within the places that the cursor has moved on. */
  ghost predicate Behind(all: seq<Token>, cursor: nat, tries: seq<Try>, moved: nat)
    requires cursor < |all|
  {
    forall t | t in Tokens(tries) :: exists j: nat :: j < moved && j < |all| && At(all, cursor, j) == t
  }

  /** The state of a cycle between two turns. */
  ghost predicate InCycle(o: Opening, tries: seq<Try>, moved: nat, blocked: map<Token, nat>, now: nat) {
    && o.Valid() && o.start <= now
    && WellFormed(tries) && Tokens(tries) <= SetOf(o.all) && (forall i | 0 <= i < |tries| :: !tries[i].outcome.Final())
    && Covered(o.all, o.cursor, o.Free(), tries, moved) && Behind(o.all, o.cursor, tries, moved)
    && Untouched(o.blocked, blocked, tries) && Timed(blocked, now, tries)
  }

  /** The bot whose turn it is, `passed` places behind the cursor: those between are blocked. It is free by `later`, or all
      bots are blocked. */
  ghost predicate IsTurn(o: Opening, moved: nat, place: nat, passed: nat, token: Token, blocked: map<Token, nat>,
                         now: nat, later: nat)
    requires o.Valid()
  {
    && now <= later && (!StillBlocked(blocked, token, later) || forall t | t in o.all :: StillBlocked(blocked, t, now))
    && passed < |o.all| && token in o.all
    && (moved < |o.all| ==> place == Wrap(o.cursor + moved, |o.all|) && IsNext(o.all, place, passed, token, blocked, now))
  }

  /** A turn of a bot that was tried before. */
  lemma SkippedTurn(o: Opening, tries: seq<Try>, moved: nat, blocked: map<Token, nat>, now: nat, place: nat, passed: nat,
                    token: Token, now': nat)
    requires InCycle(o, tries, moved, blocked, now) && token in Tokens(tries)
    requires IsTurn(o, moved, place, passed, token, blocked, now, now')
    ensures InCycle(o, tries, moved + passed + 1, blocked, now')
  {
    BehindLater(o.all, o.cursor, tries, moved, moved + passed + 1);
    hide At, Wrap, Covered, Behind, Untouched, Timed, WellFormed, Tokens, FreeBots;
    NextCovers(o.all, o.cursor, o.Free(), o.blocked, o.start, blocked, now, tries, moved, place, passed, token, tries);
    TimedLater(blocked, now, now', tries);
  }

  lemma BehindLater(all: seq<Token>, cursor: nat, tries: seq<Try>, moved: nat, moved': nat)
    requires cursor < |all| && Behind(all, cursor, tries, moved) && moved <= moved'
    ensures Behind(all, cursor, tries, moved')
  {
    hide At, Tokens;
  }

  lemma BehindTried(o: Opening, tries: seq<Try>, moved: nat, blocked: map<Token, nat>, now: nat, place: nat, passed: nat,
                    t: Try, later: nat)
    requires o.Valid() && Behind(o.all, o.cursor, tries, moved) && Tokens(tries + [t]) == Tokens(tries) + {t.token}
    requires IsTurn(o, moved, place, passed, t.token, blocked, now, later)
    ensures Behind(o.all, o.cursor, tries + [t], moved + passed + 1)
  {
    hide Tokens;
    var n := |o.all|;
    if moved + passed < n {
      WrapTwice(o.all, o.cursor, moved, passed);
      assert At(o.all, o.cursor, moved + passed) == t.token;
    } else {
      RoundCoversAll(o.all, o.cursor);
    }
    hide At, Wrap, IsTurn;
    BehindLater(o.all, o.cursor, tries, moved, moved + passed + 1);
  }

  /** A turn with an attempt. */
  lemma TriedTurn(o: Opening, tries: seq<Try>, moved: nat, blocked: map<Token, nat>, now: nat, place: nat, passed: nat,
                  t: Try, later: nat, blocked': map<Token, nat>, at: nat, now': nat)
    requires InCycle(o, tries, moved, blocked, now) && later <= now' && at <= now'
    requires IsTurn(o, moved, place, passed, t.token, blocked, now, later) && t.token !in Tokens(tries)
    requires blocked' == if t.outcome.FloodWait? then blocked[t.token := at + t.outcome.wait] else blocked
    ensures WellFormed(tries + [t]) && Tokens(tries + [t]) == Tokens(tries) + {t.token} <= SetOf(o.all)
    ensures MinWait(tries + [t]) == if t.outcome.FloodWait? && (MinWait(tries) == 0 || t.outcome.wait < MinWait(tries))
                                    then t.outcome.wait else MinWait(tries)
    ensures Timed(blocked', now', tries + [t])
    ensures !t.outcome.Final() ==> InCycle(o, tries + [t], moved + passed + 1, blocked', now')
  {
    hide At, Wrap, Covered, Behind, Untouched, Timed, WellFormed, Tokens, FreeBots, MinWait;
    TryExtends(tries, t);
    BehindTried(o, tries, moved, blocked, now, place, passed, t, later);
    NextCovers(o.all, o.cursor, o.Free(), o.blocked, o.start, blocked, now, tries, moved, place, passed, t.token, tries + [t]);
    BlocksExtend(o.blocked, blocked, now, tries, t, blocked', at, now');
  }

  /** While no block runs out, every turn goes to a free bot that was not tried yet, if there is one. */
  ghost predicate Busy(o: Opening, tries: seq<Try>, turns: nat, now: nat) {
    o.Distinct() && o.Quiet(now) ==> o.Free() <= Tokens(tries) || (Tokens(tries) <= o.Free() && |tries| == turns)
  }

  /** A bot that is free and not tried yet is reached before the cursor has gone round: so the turn is of such a bot. */
  lemma QuietTurn(o: Opening, tries: seq<Try>, moved: nat, blocked: map<Token, nat>, now: nat, place: nat, passed: nat,
                  token: Token, later: nat)
    requires InCycle(o, tries, moved, blocked, now) && o.Distinct() && o.Quiet(later)
    requires IsTurn(o, moved, place, passed, token, blocked, now, later)
    requires !(o.Free() <= Tokens(tries))
    ensures token in o.Free() && token !in Tokens(tries)
  {
    hide At, Wrap, WellFormed, Tokens, Timed, Opening.Distinct;
    var f :| f in o.Free() && f !in Tokens(tries);
    assert !StillBlocked(blocked, f, now);
    RoundCoversAll(o.all, o.cursor);
    var j: nat :| j < |o.all| && At(o.all, o.cursor, j) == f;
    assert moved <= j;
    WrapTwice(o.all, o.cursor, moved, j - moved);
    assert passed <= j - moved;
    WrapTwice(o.all, o.cursor, moved, passed);
    assert At(o.all, o.cursor, moved + passed) == token;
    if token in Tokens(tries) {
      var i: nat :| i < moved && i < |o.all| && At(o.all, o.cursor, i) == token;
      PlacesDiffer(o, i, moved + passed);
      assert false;
    }
  }

  lemma PlacesDiffer(o: Opening, i: nat, j: nat)
    requires o.Valid() && o.Distinct() && i < j < |o.all|
    ensures At(o.all, o.cursor, i) != At(o.all, o.cursor, j)
  {
  }

  lemma BusyLater(o: Opening, tries: seq<Try>, turns: nat, moved: nat, blocked: map<Token, nat>, now: nat, place: nat,
                  passed: nat, token: Token, later: nat, tries': seq<Try>, now': nat)
    requires InCycle(o, tries, moved, blocked, now) && Busy(o, tries, turns, now) && later <= now'
    requires IsTurn(o, moved, place, passed, token, blocked, now, later)
    requires if token in Tokens(tries) then tries' == tries
             else |tries'| == |tries| + 1 && Tokens(tries') == Tokens(tries) + {token}
    ensures Busy(o, tries', turns + 1, now')
  {
    if o.Distinct() && o.Quiet(now') && !(o.Free() <= Tokens(tries)) {
      assert o.Quiet(later) && o.Quiet(now);
      QuietTurn(o, tries, moved, blocked, now, place, passed, token, later);
    }
  }

  /** One attempt: a flood wait blocks the bot and counts for the minimum. */
  method Attempt(worker: BotWorker, token: Token, proxy: string, minWait: nat) returns (outcome: Outcome, minWait': nat, ghost at: nat)
    modifies worker`blocked, worker.clock
    ensures at <= worker.clock.now && old(worker.clock.now) <= worker.clock.now
    ensures worker.clock.made == old(worker.clock.made) + [Try(token, proxy, outcome)]
    ensures worker.blocked == if outcome.FloodWait? then old(worker.blocked)[token := at + outcome.wait] else old(worker.blocked)
    ensures minWait' == if outcome.FloodWait? && (minWait == 0 || outcome.wait < minWait) then outcome.wait else minWait
  {
    outcome := DoUpload(worker.clock, token, proxy);
    minWait', at := minWait, worker.clock.now;
    if outcome.FloodWait? {
      at := worker.MarkBlocked(token, outcome.wait);
      if minWait == 0 || outcome.wait < minWait {
        minWait' := outcome.wait;
      }
    }
  }

  lemma NextIsTurn(o: Opening, list: seq<Token>, moved: nat, next: nat, index: int, place: nat, passed: nat, token: Token,
                   blocked: map<Token, nat>, now: nat, later: nat)
    requires o.Valid() && o.all == Rotation(list) && now <= later
    requires IsServed(list, place, next, token, index, passed, blocked, now, later)
    requires moved < |o.all| ==> place == Wrap(o.cursor + moved, |o.all|)
    ensures IsTurn(o, moved, place, passed, token, blocked, now, later)
    ensures moved + passed + 1 < |o.all| ==> next == Wrap(o.cursor + (moved + passed + 1), |o.all|)
  {
    if moved + passed + 1 < |o.all| {
      CursorMoves(o.cursor, moved, passed, |o.all|);
    }
  }

  function LastOutcome(tries: seq<Try>): Outcome {
    if tries == [] then Unregistered else tries[|tries| - 1].outcome
  }

  /** Every attempt goes through the proxy of its bot. */
  ghost predicate Proxied(enabled: bool, botProxy: map<Token, string>, tries: seq<Try>) {
    forall i | 0 <= i < |tries| :: tries[i].proxy == ProxyOf(enabled, botProxy, tries[i].token)
  }

  /** The attempts that have been made since are those of the list. */
  ghost predicate Made(before: seq<Try>, tries: seq<Try>, after: seq<Try>, tries': seq<Try>) {
    |tries| <= |tries'| && tries'[..|tries|] == tries && after == before + tries'[|tries|..]
  }

  lemma MadeSoFar(first: seq<Try>, tries: seq<Try>, before: seq<Try>, tries': seq<Try>, after: seq<Try>)
    requires Made(before, tries, after, tries') && before == first + tries
    ensures after == first + tries'
  {
    assert tries' == tries'[..|tries|] + tries'[|tries|..];
  }

  /** One turn of a cycle: the next bot is tried, unless it has been tried before. */
  method TakeTurn(worker: BotWorker, user: User, tries: seq<Try>, tried: set<Token>, minWait: nat,
                  ghost o: Opening, ghost turns: nat, ghost moved: nat)
    returns (tries': seq<Try>, tried': set<Token>, minWait': nat, ghost moved': nat)
    requires worker.Valid() && user in worker.bots && o.all == Rotation(worker.bots[user])
    requires tried == Tokens(tries) && minWait == MinWait(tries) && Proxied(worker.proxyEnabled, worker.botProxy, tries)
    requires InCycle(o, tries, moved, worker.blocked, worker.clock.now) && Busy(o, tries, turns, worker.clock.now)
    requires o.Valid() && (moved < |o.all| ==> worker.currIdx[user] == Wrap(o.cursor + moved, |o.all|))
    modifies worker`currIdx, worker`blocked, worker.clock
    ensures worker.Valid() && worker.clock.now >= old(worker.clock.now)
    ensures moved' > moved && (moved' < |o.all| ==> worker.currIdx[user] == Wrap(o.cursor + moved', |o.all|))
    ensures tried' == Tokens(tries') && minWait' == MinWait(tries') && tries' != [] && |tries'| <= |tries| + 1
    ensures Made(old(worker.clock.made), tries, worker.clock.made, tries')
    ensures WellFormed(tries') && Tokens(tries') <= SetOf(o.all) && Timed(worker.blocked, worker.clock.now, tries')
    ensures Proxied(worker.proxyEnabled, worker.botProxy, tries')
    ensures !LastOutcome(tries').Final() ==> InCycle(o, tries', moved', worker.blocked, worker.clock.now)
    ensures Busy(o, tries', turns + 1, worker.clock.now)
  {
    hide Wrap, MinWait, IsServed, IsTurn, Busy, Proxied, FreeBots, Covered, Behind, Untouched, Timed, WellFormed;
    ghost var now, place, blocked := worker.clock.now, worker.currIdx[user], worker.blocked;
    var token, index, passed := worker.Next(user);
    moved' := moved + passed + 1;
    ghost var later := worker.clock.now;
    NextIsTurn(o, worker.bots[user], moved, worker.currIdx[user], index, place, passed, token, blocked, now, later);
    if token in tried {
      SkippedTurn(o, tries, moved, blocked, now, place, passed, token, later);
      BusyLater(o, tries, turns, moved, blocked, now, place, passed, token, later, tries, later);
      return tries, tried, minWait, moved';
    }
    tries', tried', minWait' := TryBot(worker, token, tries, tried, minWait, o, turns, moved, now, place, passed);
  }

  /** The attempt of a turn. */
  method TryBot(worker: BotWorker, token: Token, tries: seq<Try>, tried: set<Token>, minWait: nat,
                ghost o: Opening, ghost turns: nat, ghost moved: nat, ghost before: nat, ghost place: nat, ghost passed: nat)
    returns (tries': seq<Try>, tried': set<Token>, minWait': nat)
    requires tried == Tokens(tries) && minWait == MinWait(tries) && Proxied(worker.proxyEnabled, worker.botProxy, tries)
    requires InCycle(o, tries, moved, worker.blocked, before) && Busy(o, tries, turns, before) && token !in tried
    requires o.Valid() && IsTurn(o, moved, place, passed, token, worker.blocked, before, worker.clock.now)
    modifies worker`blocked, worker.clock
    ensures worker.clock.now >= old(worker.clock.now)
    ensures tried' == Tokens(tries') && minWait' == MinWait(tries') && |tries'| == |tries| + 1
    ensures Made(old(worker.clock.made), tries, worker.clock.made, tries')
    ensures WellFormed(tries') && Tokens(tries') <= SetOf(o.all) && Timed(worker.blocked, worker.clock.now, tries')
    ensures Proxied(worker.proxyEnabled, worker.botProxy, tries')
    ensures !LastOutcome(tries').Final() ==> InCycle(o, tries', moved + passed + 1, worker.blocked, worker.clock.now)
    ensures Busy(o, tries', turns + 1, worker.clock.now)
  {
    hide InCycle, Tokens, SetOf, MinWait, IsTurn, Busy, WellFormed, Timed;
    ghost var blocked, later := worker.blocked, worker.clock.now;
    var proxy := worker.GetProxy(token);
    var outcome;
    ghost var at;
    outcome, minWait', at := Attempt(worker, token, proxy, minWait);
    var t := Try(token, proxy, outcome);
    tries', tried' := tries + [t], tried + {token};
    TriedTurn(o, tries, moved, blocked, before, place, passed, t, later, worker.blocked, at, worker.clock.now);
    BusyLater(o, tries, turns, moved, blocked, before, place, passed, token, later, tries', worker.clock.now);
  }

  /** How far a cycle of `turns` turns gets that no attempt ends: to every free bot within so many places of the cursor. It
      gets to all free bots if the whole list is no longer than that. If no bot is listed twice and no block runs out on
      the way, it gets to all free bots exactly when they are not more than the turns. */
  ghost predicate Reaches(o: Opening, turns: nat, tries: seq<Try>, end: nat)
    requires o.Valid()
  {
    && Covered(o.all, o.cursor, o.Free(), tries, turns)
    && (|o.all| <= turns ==> o.Free() <= Tokens(tries))
    && (o.Distinct() && o.Quiet(end) ==> (o.Free() <= Tokens(tries) <==> |o.Free()| <= turns))
  }

  /** One cycle of at most `turns` turns. Unless an attempt ends the upload, it gets as far as Reaches says; when more
      bots are free than there are turns, it never gets to all of them. No bot is tried twice. */
  method TryAll(worker: BotWorker, user: User, turns: nat)
    returns (tries: seq<Try>, minWait: nat, ghost o: Opening)
    requires worker.Valid() && user in worker.bots && turns > 0
    modifies worker`currIdx, worker`blocked, worker.clock
    ensures worker.Valid() && worker.clock.now >= old(worker.clock.now)
    ensures o == Opening(Rotation(worker.bots[user]), old(worker.currIdx)[user], old(worker.blocked), old(worker.clock.now))
    ensures WellFormed(tries) && tries != [] && |tries| <= turns && Tokens(tries) <= SetOf(o.all)
    ensures o.Valid() && (!LastOutcome(tries).Final() ==> Reaches(o, turns, tries, worker.clock.now))
    ensures |o.Free()| > turns ==> !(o.Free() <= Tokens(tries))
    ensures Proxied(worker.proxyEnabled, worker.botProxy, tries) && worker.clock.made == old(worker.clock.made) + tries
    ensures minWait == MinWait(tries) && Timed(worker.blocked, worker.clock.now, tries)
  {
    hide At, Wrap, Covered, Untouched, Timed, WellFormed, MinWait, Tokens, FreeBots, InCycle, SetOf, Busy, Reaches, Made;
    o := Opening(Rotation(worker.bots[user]), worker.currIdx[user], worker.blocked, worker.clock.now);
    ghost var moved: nat := 0;
    assert o.Valid();
    hide Rotation;
    minWait, tries := 0, [];
    var tried: set<Token> := {};
    CycleBegins(o);
    for retry := 0 to turns
      invariant worker.Valid() && worker.clock.now >= o.start && moved >= retry >= |tries|
      invariant moved < |o.all| ==> worker.currIdx[user] == Wrap(o.cursor + moved, |o.all|)
      invariant tried == Tokens(tries) && minWait == MinWait(tries) && Proxied(worker.proxyEnabled, worker.botProxy, tries)
      invariant InCycle(o, tries, moved, worker.blocked, worker.clock.now) && Busy(o, tries, retry, worker.clock.now)
      invariant (retry > 0 ==> tries != []) && worker.clock.made == old(worker.clock.made) + tries
    {
      ghost var before, made := tries, worker.clock.made;
      tries, tried, minWait, moved := TakeTurn(worker, user, tries, tried, minWait, o, retry, moved);
      MadeSoFar(old(worker.clock.made), before, made, tries, worker.clock.made);
      if LastOutcome(tries).Final() {
        FewTokens(tries, o.Free());
        return;
      }
    }
    CycleEnds(o, turns, tries, moved, worker.blocked, worker.clock.now);
    FewTokens(tries, o.Free());
  }

  lemma CycleBegins(o: Opening)
    requires o.Valid()
    ensures InCycle(o, [], 0, o.blocked, o.start) && Busy(o, [], 0, o.start)
    ensures Tokens([]) == {} && MinWait([]) == 0 && Wrap(o.cursor, |o.all|) == o.cursor
  {
  }

  lemma CycleEnds(o: Opening, turns: nat, tries: seq<Try>, moved: nat, blocked: map<Token, nat>, now: nat)
    requires InCycle(o, tries, moved, blocked, now) && Busy(o, tries, turns, now) && moved >= turns
    ensures WellFormed(tries) && Tokens(tries) <= SetOf(o.all) && Timed(blocked, now, tries)
    ensures |tries| <= turns ==> Reaches(o, turns, tries, now)
  {
    RoundCoversAll(o.all, o.cursor);
    TokensCount(tries);
    hide At, Wrap, Untouched, Timed, WellFormed, Tokens, FreeBots, StillBlocked;
    if |tries| <= turns {
      FewTokens(tries, o.Free());
    }
    if Tokens(tries) <= o.Free() && |o.Free()| <= |tries| {
      SameSize(Tokens(tries), o.Free());
    }
  }

  lemma {:induction false} TokensCount(tries: seq<Try>)
    requires WellFormed(tries)
    ensures |Tokens(tries)| == |tries|
  {
    if tries != [] {
      var before, last := tries[..|tries| - 1], tries[|tries| - 1];
      TokensCount(before);
      assert before + [last] == tries;
      assert last.token !in Tokens(before);
      TryExtends(before, last);
    }
  }

  /** More bots than attempts cannot all have been tried. */
  lemma FewTokens(tries: seq<Try>, free: set<Token>)
    requires WellFormed(tries)
    ensures free <= Tokens(tries) ==> |free| <= |tries|
  {
    TokensCount(tries);
    hide Tokens, WellFormed;
    if free <= Tokens(tries) {
      Smaller(free, Tokens(tries));
    }
  }

  lemma {:induction false} Smaller<T>(a: set<T>, b: set<T>)
    requires a <= b
    ensures |a| <= |b|
  {
    if a != {} {
      var x :| x in a;
      Smaller(a - {x}, b - {x});
    }
  }

  lemma SameSize<T>(a: set<T>, b: set<T>)
    requires a <= b && |b| <= |a|
    ensures a == b
  {
    if a != b {
      var x :| x in b && x !in a;
      Smaller(a, b - {x});
      assert false;
    }
  }

  /** Once the shortest wait of a cycle is over, the bot that asked for it is free. */
  lemma WaitFrees(all: seq<Token>, blocked: map<Token, nat>, now: nat, tries: seq<Try>, now': nat)
    requires MinWait(tries) > 0 && Timed(blocked, now, tries) && now' >= now + MinWait(tries)
    requires Tokens(tries) <= SetOf(all)
    ensures FreeBots(all, blocked, now') != {}
  {
    var from := MinWaitIsMinimum(tries);
    var i :| from <= i < |tries| && tries[i].outcome == FloodWait(MinWait(tries));
    assert tries[i].token in Tokens(tries) && tries[i].token in FreeBots(all, blocked, now');
  }

  /** What every cycle of an upload with `turns` tokens satisfies, when the worker goes through the bots `all`. */
  ghost predicate IsCycle(turns: nat, all: seq<Token>, cycle: Cycle) {
    var o := cycle.opening;
    && WellFormed(cycle.tries) && cycle.tries != []
    && |cycle.tries| <= turns && Tokens(cycle.tries) <= SetOf(all)
    && o.all == all && o.Valid() && (!cycle.Last().Final() ==> Reaches(o, turns, cycle.tries, cycle.end))
    && (|o.Free()| > turns ==> !(o.Free() <= Tokens(cycle.tries)))
  }

  /** A cycle that follows another one: it comes after a wait for the shortest block, which has freed a bot. */
  ghost predicate Resumes(before: Cycle, cycle: Cycle) {
    && !before.Last().Final() && cycle.waited == MinWait(before.tries) > 0
    && cycle.opening.Free() != {} && cycle.opening.start >= before.end + cycle.waited
  }

  /** An upload: its tokens, the proxies given for them and those known before, and how its first cycle begins. */
  datatype Job = Job(tokens: seq<Token>, proxies: map<Token, string>, known: map<Token, string>, enabled: bool, first: Opening)
  {
    /** The proxy of a bot: the one given for it, or else the one that was known before. */
    function Proxy(token: Token): string {
      if !enabled then ""
      else if token in tokens && token in proxies then proxies[token]
      else if token in known then known[token] else ""
    }

    /** The worker has the proxies of the upload. */
    ghost predicate Knows(botProxy: map<Token, string>) {
      forall t: Token :: ProxyOf(enabled, botProxy, t) == Proxy(t)
    }

    ghost predicate AsGiven(tries: seq<Try>) {
      forall i | 0 <= i < |tries| :: tries[i].proxy == Proxy(tries[i].token)
    }
  }

  /** The cycles of an upload: at most four, one after the other, and every attempt through the right proxy. */
  ghost predicate IsLog(job: Job, log: seq<Cycle>) {
    && 1 <= |log| <= 4 && log[0].opening == job.first
    && (forall k | 0 <= k < |log| :: IsCycle(|job.tokens|, job.first.all, log[k]) && job.AsGiven(log[k].tries))
    && (forall k, l | 0 <= k < l < |log| && l == k + 1 :: Resumes(log[k], log[l]))
  }

  /** How the response follows from the last cycle. */
  ghost predicate Answers(log: seq<Cycle>, r: Response)
    requires log != []
  {
    var cycle := log[|log| - 1];
    match r
    case Uploaded(part) => cycle.Last() == Success(part)
    case Error(outcome) => cycle.Last() == outcome && (outcome.Fatal? || (!outcome.Final() && MinWait(cycle.tries) == 0))
    case RetryAfter(wait) => |log| == 4 && wait == MinWait(cycle.tries) > 0 && !cycle.Last().Final()
    case UploadFailed => false
  }

  function Attempts(log: seq<Cycle>): nat {
    if log == [] then 0 else |log[0].tries| + Attempts(log[1..])
  }

  /** The attempts of all cycles, in order. */
  function AllTries(log: seq<Cycle>): seq<Try> {
    if log == [] then [] else AllTries(log[..|log| - 1]) + log[|log| - 1].tries
  }

  lemma NoTries(made: seq<Try>)
    ensures made + AllTries([]) == made
  {
  }

  lemma MoreTries(made: seq<Try>, log: seq<Cycle>, log': seq<Cycle>, tries: seq<Try>)
    requires |log'| == |log| + 1 && log'[..|log|] == log && log'[|log|].tries == tries
    ensures made + AllTries(log) + tries == made + AllTries(log')
  {
  }

  lemma {:induction false} FewAttempts(turns: nat, log: seq<Cycle>)
    requires forall k | 0 <= k < |log| :: |log[k].tries| <= turns
    ensures Attempts(log) <= |log| * turns
  {
    if log != [] {
      FewAttempts(turns, log[1..]);
      assert |log| * turns == turns + (|log| - 1) * turns;
    }
  }

  /** A success or a fatal error ends the upload: nothing is tried after it. */
  ghost predicate EndsUpload(log: seq<Cycle>) {
    forall k, i | 0 <= k < |log| && 0 <= i < |log[k].tries| && (log[k].tries[i].outcome.Success? || log[k].tries[i].outcome.Fatal?) ::
      k == |log| - 1 && i == |log[k].tries| - 1
  }

  lemma FinalIsLast(job: Job, log: seq<Cycle>)
    requires IsLog(job, log)
    ensures EndsUpload(log)
  {
    forall k, i | 0 <= k < |log| && 0 <= i < |log[k].tries| && log[k].tries[i].outcome.Final()
      ensures k == |log| - 1 && i == |log[k].tries| - 1
    {
      assert IsCycle(|job.tokens|, job.first.all, log[k]);
      hide Tokens, Reaches, FreeBots, Job.AsGiven, MinWait;
      assert k < |log| - 1 ==> Resumes(log[k], log[k + 1]);
    }
  }

  lemma FourCycles(job: Job, log: seq<Cycle>)
    requires IsLog(job, log)
    ensures Attempts(log) <= 4 * |job.tokens|
  {
    var turns := |job.tokens|;
    assert forall k | 0 <= k < |log| :: |log[k].tries| <= turns by {
      hide WellFormed, Tokens, Reaches, FreeBots, Resumes, Job.AsGiven;
      assert forall k | 0 <= k < |log| :: IsCycle(turns, job.first.all, log[k]);
    }
    hide IsCycle, Resumes, Attempts, Job.AsGiven;
    FewAttempts(turns, log);
    assert |log| == 1 || |log| == 2 || |log| == 3 || |log| == 4;
  }

  lemma LogExtends(job: Job, log: seq<Cycle>, cycle: Cycle)
    requires log == [] || IsLog(job, log)
    requires IsCycle(|job.tokens|, job.first.all, cycle) && job.AsGiven(cycle.tries) && |log| <= MAX_WAIT_CYCLES
    requires if log == [] then cycle.opening == job.first else Resumes(log[|log| - 1], cycle)
    ensures IsLog(job, log + [cycle])
  {
    hide IsCycle, Resumes, Job.AsGiven;
  }

  /** One cycle more. */
  method RunCycle(worker: BotWorker, user: User, turns: nat, ghost job: Job, ghost log: seq<Cycle>, ghost slept: nat)
    returns (tries: seq<Try>, minWait: nat, ghost log': seq<Cycle>)
    requires worker.Valid() && user in worker.bots && Rotation(worker.bots[user]) == job.first.all
    requires turns == |job.tokens| > 0 && job.enabled == worker.proxyEnabled && job.Knows(worker.botProxy)
    requires |log| <= MAX_WAIT_CYCLES && (log == [] || IsLog(job, log))
    requires log == [] ==> job.first == Opening(job.first.all, worker.currIdx[user], worker.blocked, worker.clock.now)
    requires log != [] ==> Waited(log[|log| - 1], slept, job.first.all, worker.blocked, worker.clock.now)
    modifies worker`currIdx, worker`blocked, worker.clock
    ensures worker.Valid() && worker.clock.now >= old(worker.clock.now) && tries != []
    ensures IsLog(job, log') && |log'| == |log| + 1
    ensures log'[|log|].tries == tries && log'[|log|].end == worker.clock.now && minWait == MinWait(tries)
    ensures log'[..|log|] == log && worker.clock.made == old(worker.clock.made) + tries
    ensures Tokens(tries) <= SetOf(job.first.all) && Timed(worker.blocked, worker.clock.now, tries)
  {
    hide Timed, MinWait, Tokens, SetOf, FreeBots, WellFormed, IsLog, Attempts, Reaches, Rotation;
    ghost var o;
    tries, minWait, o := TryAll(worker, user, turns);
    ghost var cycle := Cycle(slept, o, tries, worker.clock.now);
    assert IsCycle(turns, job.first.all, cycle) && job.AsGiven(tries);
    hide IsCycle, Job.AsGiven, Job.Knows, Proxied;
    LogExtends(job, log, cycle);
    log' := log + [cycle];
  }

  /** After a cycle the wait for the shortest block is over, and a bot is free. */
  ghost predicate Waited(last: Cycle, slept: nat, all: seq<Token>, blocked: map<Token, nat>, now: nat) {
    && !last.Last().Final() && slept == MinWait(last.tries) > 0
    && now >= last.end + slept && FreeBots(all, blocked, now) != {}
  }

  /** All cycles of an upload. */
  method RunCycles(worker: BotWorker, user: User, turns: nat, ghost job: Job) returns (r: Response, ghost log: seq<Cycle>)
    requires worker.Valid() && user in worker.bots && Rotation(worker.bots[user]) == job.first.all
    requires turns == |job.tokens| > 0 && job.enabled == worker.proxyEnabled && job.Knows(worker.botProxy)
    requires job.first == Opening(job.first.all, worker.currIdx[user], worker.blocked, worker.clock.now)
    modifies worker`currIdx, worker`blocked, worker.clock
    ensures worker.Valid() && IsLog(job, log) && Answers(log, r)
    ensures worker.clock.made == old(worker.clock.made) + AllTries(log)
  {
    hide Timed, MinWait, Tokens, SetOf, FreeBots, WellFormed, IsLog, Rotation, Job.Knows, AllTries;
    NoTries(worker.clock.made);
    ghost var all := job.first.all;
    var minWait, lastErr: Option<Outcome> := 0, None;
    ghost var slept: nat := 0;
    log := [];
    for waitCycle := 0 to MAX_WAIT_CYCLES + 1
      invariant worker.Valid() && |log| == waitCycle <= MAX_WAIT_CYCLES && (log == [] || IsLog(job, log))
      invariant log == [] ==> job.first == Opening(all, worker.currIdx[user], worker.blocked, worker.clock.now)
      invariant log != [] ==> Waited(log[|log| - 1], slept, all, worker.blocked, worker.clock.now)
      invariant worker.clock.made == old(worker.clock.made) + AllTries(log)
    {
      var tries;
      ghost var before := log;
      tries, minWait, log := RunCycle(worker, user, turns, job, log, slept);
      MoreTries(old(worker.clock.made), before, log, tries);
      var last := LastOutcome(tries);
      if last.Final() {
        r := if last.Success? then Uploaded(last.part) else Error(last);
        return;
      }
      lastErr := Some(last);
      if minWait > 0 && waitCycle < MAX_WAIT_CYCLES {
        ghost var now := worker.clock.now;
        worker.clock.Sleep(minWait);
        WaitFrees(all, worker.blocked, now, tries, worker.clock.now);
        slept := minWait;
        continue;
      }
      break;
    }
    if minWait > 0 {
      return RetryAfter(minWait), log;
    }
    r := if lastErr.Some? then Error(lastErr.value) else UploadFailed;
  }

  /** An upload with a list of bot tokens: at most four cycles of at most as many attempts as tokens. Each cycle gets to the
      free bots of the worker's list for the user, which need not be the token list, as far as Reaches says. Between two
      cycles it waits for the shortest block of the cycle before, so that at least one bot is free again. Only the fourth
      cycle may end in a request to retry later, and that names the minimum of its flood waits. */
  method Upload(worker: BotWorker, user: User, tokens: seq<Token>, proxies: map<Token, string>)
    returns (r: Response, ghost log: seq<Cycle>)
    requires worker.Valid()
    modifies worker, worker.clock
    ensures worker.Valid()
    ensures tokens == [] ==>
      && log == [] && |worker.clock.made| == |old(worker.clock.made)| + 1
      && var outcome := worker.clock.made[|old(worker.clock.made)|].outcome;
         && worker.clock.made == old(worker.clock.made) + [Try("", "", outcome)]
         && r == if outcome.Success? then Uploaded(outcome.part) else Error(outcome)
    ensures tokens != [] ==>
      && user in worker.bots && worker.bots[user] == (if user in old(worker.bots) then old(worker.bots)[user] else tokens)
      && var cursor := if user in old(worker.bots) then old(worker.currIdx)[user] else 0;
         var first := Opening(Rotation(worker.bots[user]), cursor, old(worker.blocked), old(worker.clock.now));
         IsLog(Job(tokens, proxies, old(worker.botProxy), worker.proxyEnabled, first), log) && Answers(log, r)
    ensures tokens != [] ==> worker.clock.made == old(worker.clock.made) + AllTries(log) && EndsUpload(log)
    ensures Attempts(log) <= 4 * |tokens|
  {
    hide IsLog, Attempts, Answers, AllTries, EndsUpload;
    if tokens == [] {
      var outcome := DoUpload(worker.clock, "", "");
      NoAttempts();
      r, log := if outcome.Success? then Uploaded(outcome.part) else Error(outcome), [];
      return;
    }
    worker.SetWithProxies(tokens, proxies, user);
    ghost var first := Opening(Rotation(worker.bots[user]), worker.currIdx[user], worker.blocked, worker.clock.now);
    ghost var job := Job(tokens, proxies, old(worker.botProxy), worker.proxyEnabled, first);
    assert job.Knows(worker.botProxy);
    hide Rotation, Job.Knows;
    r, log := RunCycles(worker, user, |tokens|, job);
    FourCycles(job, log);
    FinalIsLast(job, log);
  }

  lemma NoAttempts()
    ensures Attempts([]) == 0
  {
  }

  /** The running minimum is not the minimum when a flood wait of zero is among the waits. */
  lemma ZeroWaitResets()
    ensures MinWait([Try("a", "", FloodWait(5)), Try("b", "", FloodWait(0)), Try("c", "", FloodWait(9))]) == 9
  {
    var a, b, c := Try("a", "", FloodWait(5)), Try("b", "", FloodWait(0)), Try("c", "", FloodWait(9));
    MinWaitStep([], a);
    MinWaitStep([a], b);
    MinWaitStep([a, b], c);
    assert [] + [a] == [a] && [a] + [b] == [a, b] && [a, b] + [c] == [a, b, c];
  }

  /** A worker that was set up with two bots is given an upload with one token: its first cycle leaves a free bot out. */
  method LongerListMissesABot() returns (ghost cycle: Cycle)
    ensures cycle.opening == Opening(["a", "b"], 0, map[], cycle.opening.start) && |cycle.tries| == 1
    ensures cycle.opening.Free() == {"a", "b"} && !(cycle.opening.Free() <= Tokens(cycle.tries))
  {
    var clock := new Outside();
    var worker := new BotWorker(clock, false);
    worker.Set(["a", "b"], 1);
    ghost var log;
    var r;
    r, log := Upload(worker, 1, ["a"], map[]);
    cycle := log[0];
    assert IsCycle(1, ["a", "b"], cycle);
    hide Reaches, WellFormed, Tokens, Answers, IsLog, Attempts;
    assert cycle.opening.Free() == {"a", "b"};
  }
}
