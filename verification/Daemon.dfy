/**
 The auth daemon's token store (auth-daemon/src/state.rs) and the middleware that uses it
 (auth-core/src/middleware/inject_token.rs), one request at a time.

 Provider, database and upstream server answer as each Call says. A log keeps what was presented to
 the provider and what was sent upstream.
 */
module Daemon {
  import opened Wrappers

  const DEFAULT_EXPIRY := 60

  datatype Token = Token(access: Option<nat>, expiresAt: int, refresh: nat)

  /** How one attempt to refresh goes. */
  datatype Refreshing =
    | Refused                                                       // the exchange fails
    | Answered(lifetime: Option<nat>, rotates: bool, written: bool) // the exchange succeeds; is the row written?

  /** An upstream response: its status, and the length of the "errors" array if its body is JSON with one. */
  datatype Response = Response(success: bool, errors: Option<nat>)

  /** One incoming request, with what the outside world will do to it: whether its body can be read and copied, and
      whether the body of the first response can be collected. */
  datatype Call = Call(
    now: int,
    first: Refreshing,
    copied: bool,
    response: Response,
    collected: bool,
    later: int,
    second: Refreshing)

  datatype Reply = Unauthorized | RefreshFailed | RequestUnreadable | ResponseUnreadable | Forwarded

  /** One refresh: the token presented, and the refresh token in memory afterwards. */
  datatype Attempt = Attempt(presented: nat, kept: nat)

  datatype World = World(
    row: nat,                    // the refresh token in the database
    latest: nat,                 // the newest refresh token the provider has issued
    nextToken: nat,
    attempts: seq<Attempt>,
    sent: seq<Option<nat>>,      // the bearer of every request sent upstream
    dropped: bool)               // history: a new refresh token was issued but could not be written

  // ---------------------------------------------------------------- reading

  predicate IsExpired(token: Token, now: int) {
    token.expiresAt <= now || token.access.None?
  }

  predicate ShouldRetry(response: Response) {
    !response.success || (response.errors.Some? && response.errors.value > 0)
  }

  // ---------------------------------------------------------------- what one request does

  datatype State = State(token: Option<Token>, world: World)

  /** The answer's access token and expiry; its refresh token too, if it has one. */
  function Updated(token: Token, access: nat, lifetime: Option<nat>, rotated: Option<nat>, now: int): Token {
    Token(Some(access), now + (if lifetime.Some? then lifetime.value else DEFAULT_EXPIRY),
          if rotated.Some? then rotated.value else token.refresh)
  }

  /** refresh_and_persist: exchange, write the row, then change the token in memory. */
  function Refreshed(s: State, token: Token, now: int, outcome: Refreshing): (State, Option<Token>) {
    var w := s.world;
    match outcome
    case Refused => (s.(world := w.(attempts := w.attempts + [Attempt(token.refresh, token.refresh)])), None)
    case Answered(lifetime, rotates, written) =>
      var access := w.nextToken;
      var rotated := if rotates then Some(w.nextToken + 1) else None;
      var renewed := Updated(token, access, lifetime, rotated, now);
      var asked := w.(nextToken := w.nextToken + 2, latest := if rotates then w.nextToken + 1 else w.latest);
      if written
      then (State(Some(renewed), asked.(row := renewed.refresh, dropped := w.dropped && !rotates,
                                      attempts := w.attempts + [Attempt(token.refresh, renewed.refresh)])),
            Some(renewed))
      else (s.(world := asked.(dropped := w.dropped || rotates,
                               attempts := w.attempts + [Attempt(token.refresh, token.refresh)])),
            None)
  }

  function Sent(s: State, token: Token): State {
    s.(world := s.world.(sent := s.world.sent + [token.access]))
  }

  /** inject_token_with: refresh if expired, send, and on failure refresh and send once more. */
  function Served(s: State, call: Call): (State, Reply) {
    if s.token.None? then (s, Unauthorized)
    else
      var (ready, current) := MadeReady(s, s.token.value, call);
      if current.None? then (ready, RefreshFailed)
      else if !call.copied then (ready, RequestUnreadable)
      else SentWithRetry(ready, current.value, call)
  }

  function MadeReady(s: State, loaded: Token, call: Call): (State, Option<Token>) {
    if IsExpired(loaded, call.now) then Refreshed(s, loaded, call.now, call.first) else (s, Some(loaded))
  }

  function SentWithRetry(s: State, current: Token, call: Call): (State, Reply) {
    var once := Sent(s, current);
    if !call.collected then (once, ResponseUnreadable)
    else if !ShouldRetry(call.response) then (once, Forwarded)
    else
      var (again, renewed) := Refreshed(once, current, call.later, call.second);
      if renewed.None? then (again, RefreshFailed) else (Sent(again, renewed.value), Forwarded)
  }

  class RouterState {
    var token: Option<Token>
    var world: World

    /** The store starts from the row, with a token that the first request will find expired. */
    constructor (row: nat, nextToken: nat, now: int)
      ensures State(token, world) == Started(row, nextToken, now)
    {
      token := Some(Token(None, now, row));
      world := World(row, row, nextToken, [], [], false);
    }

    method RefreshAndPersist(current: Token, now: int, outcome: Refreshing) returns (renewed: Option<Token>)
      modifies this
      ensures (State(token, world), renewed) == Refreshed(old(State(token, world)), current, now, outcome)
    {
      match outcome {
        case Refused =>
          world := world.(attempts := world.attempts + [Attempt(current.refresh, current.refresh)]);
          renewed := None;
        case Answered(lifetime, rotates, written) =>
          var access := world.nextToken;
          var rotated := if rotates then Some(access + 1) else None;
          world := world.(nextToken := access + 2);
          if rotates {
            world := world.(latest := access + 1);
          }
          var updated := Updated(current, access, lifetime, rotated, now);
          if !written {
            world := world.(dropped := world.dropped || rotates,
                            attempts := world.attempts + [Attempt(current.refresh, current.refresh)]);
            return None;
          }
          world := world.(row := updated.refresh, dropped := world.dropped && !rotates,
                          attempts := world.attempts + [Attempt(current.refresh, updated.refresh)]);
          token := Some(updated);
          renewed := Some(updated);
      }
    }

    method Send(current: Token)
      modifies this`world
      ensures State(token, world) == Sent(old(State(token, world)), current)
    {
      world := world.(sent := world.sent + [current.access]);
    }

    method InjectToken(call: Call) returns (reply: Reply)
      modifies this
      ensures (State(token, world), reply) == Served(old(State(token, world)), call)
      ensures old(token).None? ==> reply == Unauthorized && State(token, world) == old(State(token, world))
    {
      if token.None? {
        return Unauthorized;
      }
      var current := token.value;
      if IsExpired(current, call.now) {
        var renewed := RefreshAndPersist(current, call.now, call.first);
        if renewed.None? {
          return RefreshFailed;
        }
        current := renewed.value;
      }
      if !call.copied {
        return RequestUnreadable;
      }
      Send(current);
      if !call.collected {
        return ResponseUnreadable;
      }
      if !ShouldRetry(call.response) {
        return Forwarded;
      }
      var again := RefreshAndPersist(current, call.later, call.second);
      if again.None? {
        return RefreshFailed;
      }
      Send(again.value);
      reply := Forwarded;
    }
  }

  function Started(row: nat, nextToken: nat, now: int): State {
    State(Some(Token(None, now, row)), World(row, row, nextToken, [], [], false))
  }

  // ---------------------------------------------------------------- what one request comes to

  /** The refresh brings a token that is kept: the provider answers, and the row is written. */
  predicate Succeeds(outcome: Refreshing) {
    outcome.Answered? && outcome.written
  }

  /** A refresh at that moment that succeeds leaves a new access token, in memory and row alike, that lives for its
      reported lifetime or 60 seconds; any other leaves memory and row as they were. */
  lemma {:induction false} RefreshExactly(s: State, token: Token, now: int, outcome: Refreshing)
    ensures var (t, renewed) := Refreshed(s, token, now, outcome);
            && (renewed.Some? <==> Succeeds(outcome))
            && (renewed.Some? ==>
                  && t.token == renewed && renewed.value.access == Some(s.world.nextToken)
                  && renewed.value.expiresAt - now == (if outcome.lifetime.Some? then outcome.lifetime.value else 60)
                  && renewed.value.refresh == (if outcome.rotates then s.world.nextToken + 1 else token.refresh)
                  && t.world.row == renewed.value.refresh
                  && (outcome.rotates ==> t.world.row == t.world.latest == s.world.nextToken + 1))
            && (renewed.None? ==> t.token == s.token && t.world.row == s.world.row)
  {
  }

  /** The request refreshes before it sends anything, and gets a token. */
  predicate RenewsFirst(s: State, call: Call)
    requires s.token.Some?
  {
    (s.token.value.expiresAt <= call.now || s.token.value.access.None?) && Succeeds(call.first)
  }

  /** The request has something to send, and a token to send it with. */
  predicate Sends(s: State, call: Call)
    requires s.token.Some?
  {
    call.copied && ((call.now < s.token.value.expiresAt && s.token.value.access.Some?) || Succeeds(call.first))
  }

  /** The first response is read, and is a failure or reports errors. */
  predicate Retries(s: State, call: Call)
    requires s.token.Some?
  {
    && Sends(s, call) && call.collected
    && (!call.response.success || (call.response.errors.Some? && call.response.errors.value != 0))
  }

  /** The provider's answer, as a token; its refresh token if it has one, or else the earlier one. */
  predicate IsAnswer(token: Option<Token>, access: nat, moment: int, outcome: Refreshing, refresh: nat) {
    && outcome.Answered? && token.Some? && token.value.access == Some(access)
    && token.value.expiresAt == moment + (if outcome.lifetime.Some? then outcome.lifetime.value else 60)
    && token.value.refresh == (if outcome.rotates then access + 1 else refresh)
  }

  /** What one request comes to, told from its token and the answers it gets: how often it refreshes, which tokens
      it sends, and the reply. */
  lemma {:induction false} ServedExactly(s: State, call: Call)
    requires s.token.Some?
    ensures var token := s.token.value;
            var expired := token.expiresAt <= call.now || token.access.None?;
            var retried := Retries(s, call);
            var (t, reply) := Served(s, call);
            var bearer := if expired then Some(s.world.nextToken) else token.access;
            var again := Some(s.world.nextToken + if expired then 2 else 0);
            if !Sends(s, call) then
              && t.world.sent == s.world.sent && |t.world.attempts| == |s.world.attempts| + (if expired then 1 else 0)
              && reply == (if expired && !Succeeds(call.first) then RefreshFailed else RequestUnreadable)
            else
              && t.world.sent == s.world.sent + [bearer] + (if retried && Succeeds(call.second) then [again] else [])
              && reply == (if !call.collected then ResponseUnreadable
                           else if retried && !Succeeds(call.second) then RefreshFailed
                           else Forwarded)
              && |t.world.attempts| == |s.world.attempts| + (if expired then 1 else 0) + (if retried then 1 else 0)
  {
    var token := s.token.value;
    if IsExpired(token, call.now) { RefreshExactly(s, token, call.now, call.first); }
    var (ready, current) := MadeReady(s, token, call);
    if current.Some? && call.copied {
      RefreshExactly(Sent(ready, current.value), current.value, call.later, call.second);
    }
  }

  /** What memory holds after one request, told from the answers it gets: the token of its last refresh that
      succeeded, or what was there before if none did. */
  lemma {:induction false} HeldExactly(s: State, call: Call)
    requires s.token.Some?
    ensures var token := s.token.value;
            var next, kept := s.world.nextToken, Served(s, call).0.token;
            var expired := token.expiresAt <= call.now || token.access.None?;
            if Retries(s, call) && Succeeds(call.second) then
              IsAnswer(kept, next + if expired then 2 else 0, call.later, call.second,
                       if expired && call.first.rotates then next + 1 else token.refresh)
            else if RenewsFirst(s, call) then
              IsAnswer(kept, next, call.now, call.first, token.refresh)
            else
              kept == s.token
  {
    var token := s.token.value;
    if IsExpired(token, call.now) { RefreshExactly(s, token, call.now, call.first); }
    var (ready, current) := MadeReady(s, token, call);
    if current.Some? && call.copied {
      RefreshExactly(Sent(ready, current.value), current.value, call.later, call.second);
    }
  }

  // ---------------------------------------------------------------- every run of requests

  function ServedAll(s: State, calls: seq<Call>): State
    decreases |calls|
  {
    if calls == [] then s else Served(ServedAll(s, calls[..|calls| - 1]), calls[|calls| - 1]).0
  }

  /** Each refresh presents what the one before it left in memory. */
  ghost predicate Chained(attempts: seq<Attempt>, start: nat) {
    forall i :: 0 <= i < |attempts| ==> attempts[i].presented == LastKept(attempts[..i], start)
  }

  function LastKept(attempts: seq<Attempt>, start: nat): nat {
    if attempts == [] then start else attempts[|attempts| - 1].kept
  }

  /**
   Memory and database agree; refreshes are chained from the first stored token; and the stored token is
   the newest one unless a newer one could not be written.
   */
  ghost predicate Consistent(s: State, start: nat) {
    && s.token.Some? && s.token.value.refresh == s.world.row
    && Chained(s.world.attempts, start) && LastKept(s.world.attempts, start) == s.world.row
    && (s.world.latest == s.world.row <==> !s.world.dropped)
    && s.world.row < s.world.nextToken && s.world.latest < s.world.nextToken
  }

  lemma {:induction false} LogGrows(attempts: seq<Attempt>, start: nat, next: Attempt)
    requires Chained(attempts, start) && next.presented == LastKept(attempts, start)
    ensures Chained(attempts + [next], start) && LastKept(attempts + [next], start) == next.kept
  {
    var longer := attempts + [next];
    forall i | 0 <= i < |longer|
      ensures longer[i].presented == LastKept(longer[..i], start)
    {
      assert longer[..i] == attempts[..i];
      if i == |attempts| { assert attempts[..i] == attempts; }
    }
  }

  /** What a refresh keeps, and what it hands on. */
  ghost predicate RefreshKeeps(s: State, t: State, renewed: Option<Token>, start: nat) {
    && Consistent(t, start) && |t.world.attempts| == |s.world.attempts| + 1 && t.world.sent == s.world.sent
    && (renewed.Some? ==> t.token == renewed && renewed.value.access.Some?)
    && (renewed.None? ==> t.token == s.token)
  }

  /** One more attempt, chained to the last one; what it keeps is in memory and row. */
  ghost predicate Attempted(s: State, t: State, next: Attempt) {
    && t.world.attempts == s.world.attempts + [next] && next.presented == s.world.row
    && t.token.Some? && t.token.value.refresh == next.kept == t.world.row
    && (t.world.latest == t.world.row <==> !t.world.dropped)
    && t.world.row < t.world.nextToken && t.world.latest < t.world.nextToken
  }

  lemma AttemptStaysConsistent(s: State, t: State, start: nat, next: Attempt)
    requires Consistent(s, start) && Attempted(s, t, next)
    ensures Consistent(t, start)
  {
    LogGrows(s.world.attempts, start, next);
  }

  /** What of a consistent state the single refresh depends on. */
  ghost predicate Ready(s: State) {
    && s.token.Some? && s.token.value.refresh == s.world.row && (s.world.latest == s.world.row <==> !s.world.dropped)
    && s.world.row < s.world.nextToken && s.world.latest < s.world.nextToken
  }

  lemma RefusedAttempt(s: State, now: int)
    requires Ready(s)
    ensures Attempted(s, Refreshed(s, s.token.value, now, Refused).0, Attempt(s.world.row, s.world.row))
  {
  }

  lemma WrittenAttempt(s: State, now: int, lifetime: Option<nat>, rotates: bool)
    requires Ready(s)
    ensures Attempted(s, Refreshed(s, s.token.value, now, Answered(lifetime, rotates, true)).0,
                      Attempt(s.world.row, if rotates then s.world.nextToken + 1 else s.world.row))
  {
  }

  lemma UnwrittenAttempt(s: State, now: int, lifetime: Option<nat>, rotates: bool)
    requires Ready(s)
    ensures Attempted(s, Refreshed(s, s.token.value, now, Answered(lifetime, rotates, false)).0,
                      Attempt(s.world.row, s.world.row))
  {
  }

  lemma RefreshHandsOn(s: State, now: int, outcome: Refreshing)
    requires s.token.Some?
    ensures var (t, renewed) := Refreshed(s, s.token.value, now, outcome);
            && |t.world.attempts| == |s.world.attempts| + 1 && t.world.sent == s.world.sent
            && (renewed.Some? ==> t.token == renewed && renewed.value.access.Some?)
            && (renewed.None? ==> t.token == s.token)
  {
  }

  lemma RefreshStaysConsistent(s: State, start: nat, now: int, outcome: Refreshing)
    requires Consistent(s, start)
    ensures var (t, renewed) := Refreshed(s, s.token.value, now, outcome); RefreshKeeps(s, t, renewed, start)
  {
    var t := Refreshed(s, s.token.value, now, outcome).0;
    var row := s.world.row;
    RefreshHandsOn(s, now, outcome);
    match outcome
    case Refused =>
      RefusedAttempt(s, now);
      AttemptStaysConsistent(s, t, start, Attempt(row, row));
    case Answered(lifetime, rotates, written) =>
      if written {
        WrittenAttempt(s, now, lifetime, rotates);
        AttemptStaysConsistent(s, t, start, Attempt(row, if rotates then s.world.nextToken + 1 else row));
      } else {
        UnwrittenAttempt(s, now, lifetime, rotates);
        AttemptStaysConsistent(s, t, start, Attempt(row, row));
      }
  }

  /** From s to t: still consistent, with at most so many refreshes and messages, each message bearing a token. */
  ghost predicate Keeps(s: State, t: State, start: nat, refreshes: nat, messages: nat) {
    && Consistent(t, start)
    && |s.world.attempts| <= |t.world.attempts| <= |s.world.attempts| + refreshes
    && s.world.sent <= t.world.sent && |t.world.sent| <= |s.world.sent| + messages
    && forall i :: |s.world.sent| <= i < |t.world.sent| ==> t.world.sent[i].Some?
  }

  lemma SendKeeps(s: State, start: nat, current: Token)
    requires Consistent(s, start) && current.access.Some?
    ensures Keeps(s, Sent(s, current), start, 0, 1) && Sent(s, current).token == s.token
  {
  }

  lemma RetryKeeps(s: State, start: nat, call: Call)
    requires Consistent(s, start) && s.token.value.access.Some?
    ensures Keeps(s, SentWithRetry(s, s.token.value, call).0, start, 1, 2)
  {
    var once := Sent(s, s.token.value);
    SendKeeps(s, start, s.token.value);
    if call.collected && ShouldRetry(call.response) {
      RefreshStaysConsistent(once, start, call.later, call.second);
      var (again, renewed) := Refreshed(once, s.token.value, call.later, call.second);
      if renewed.Some? { SendKeeps(again, start, renewed.value); }
    }
  }

  /** One request: at most two refreshes and two messages upstream; everything stays consistent, whatever fails. */
  lemma ServingKeeps(s: State, start: nat, call: Call)
    requires Consistent(s, start)
    ensures Keeps(s, Served(s, call).0, start, 2, 2)
  {
    if IsExpired(s.token.value, call.now) { RefreshStaysConsistent(s, start, call.now, call.first); }
    var (ready, current) := MadeReady(s, s.token.value, call);
    if current.Some? && call.copied {
      assert ready.token == current;
      RetryKeeps(ready, start, call);
    }
  }

  /** Over every run of requests, with any failures. */
  lemma {:induction false} DaemonStaysConsistent(row: nat, nextToken: nat, now: int, calls: seq<Call>)
    requires row < nextToken
    ensures var t := ServedAll(Started(row, nextToken, now), calls);
            && Consistent(t, row)
            && |t.world.attempts| <= 2 * |calls| && |t.world.sent| <= 2 * |calls|
            && forall i :: 0 <= i < |t.world.sent| ==> t.world.sent[i].Some?
    decreases |calls|
  {
    if calls != [] {
      var front := calls[..|calls| - 1];
      DaemonStaysConsistent(row, nextToken, now, front);
      var s := ServedAll(Started(row, nextToken, now), front);
      ServingKeeps(s, row, calls[|calls| - 1]);
      var t := ServedAll(Started(row, nextToken, now), calls);
      forall i | 0 <= i < |t.world.sent|
        ensures t.world.sent[i].Some?
      {
        if i < |s.world.sent| { assert t.world.sent[i] == s.world.sent[i]; }
      }
    }
  }

  /** The access token that the last refresh to succeed in a run of requests brought, and when it expires. */
  function LastObtained(s: State, calls: seq<Call>): Option<(nat, int)>
    decreases |calls|
  {
    if calls == [] then None
    else
      var front, last := calls[..|calls| - 1], calls[|calls| - 1];
      var here := Obtained(ServedAll(s, front), last);
      if here.Some? then here else LastObtained(s, front)
  }

  /** The same for one request, told from the answers it gets. */
  function Obtained(s: State, call: Call): Option<(nat, int)> {
    if s.token.None? then None
    else if Retries(s, call) && Succeeds(call.second) then
      Some((s.world.nextToken + (if RenewsFirst(s, call) then 2 else 0), call.later + LivesFor(call.second)))
    else if RenewsFirst(s, call) then
      Some((s.world.nextToken, call.now + LivesFor(call.first)))
    else
      None
  }

  function LivesFor(outcome: Refreshing): nat
    requires outcome.Answered?
  {
    if outcome.lifetime.Some? then outcome.lifetime.value else 60
  }

  /** In every run, memory holds the access token that was last obtained, if any was. */
  lemma {:induction false} HoldsLastObtained(row: nat, nextToken: nat, now: int, calls: seq<Call>)
    requires row < nextToken
    ensures var start := Started(row, nextToken, now);
            var token, last := ServedAll(start, calls).token, LastObtained(start, calls);
            && token.Some?
            && (last.Some? ==> token.value.access == Some(last.value.0) && token.value.expiresAt == last.value.1)
            && (last.None? ==> token == start.token)
    decreases |calls|
  {
    if calls != [] {
      var front, last := calls[..|calls| - 1], calls[|calls| - 1];
      HoldsLastObtained(row, nextToken, now, front);
      HeldExactly(ServedAll(Started(row, nextToken, now), front), last);
    }
  }

  /** In every run, a request first sends the access token that was last obtained while that has not expired, and
      otherwise one that it has obtained itself. */
  lemma {:induction false} FirstBearerExactly(row: nat, nextToken: nat, now: int, calls: seq<Call>, call: Call)
    requires row < nextToken && call.copied
    ensures var start := Started(row, nextToken, now);
            var s, last := ServedAll(start, calls), LastObtained(start, calls);
            var t := Served(s, call).0;
            if last.Some? && call.now < last.value.1 then
              |t.world.sent| > |s.world.sent| && t.world.sent[|s.world.sent|] == Some(last.value.0)
            else if Succeeds(call.first) then
              |t.world.sent| > |s.world.sent| && t.world.sent[|s.world.sent|] == Some(s.world.nextToken)
            else
              t.world.sent == s.world.sent
  {
    var start := Started(row, nextToken, now);
    HoldsLastObtained(row, nextToken, now, calls);
    ServedExactly(ServedAll(start, calls), call);
  }

  /** If every new refresh token could be written, the stored one is the newest the provider has issued. */
  lemma {:induction false} StoredIsNewest(row: nat, nextToken: nat, now: int, calls: seq<Call>)
    requires row < nextToken
    requires forall i :: 0 <= i < |calls| ==> Writes(calls[i].first) && Writes(calls[i].second)
    ensures var w := ServedAll(Started(row, nextToken, now), calls).world; w.row == w.latest
    decreases |calls|
  {
    if calls != [] {
      var front, last := calls[..|calls| - 1], calls[|calls| - 1];
      StoredIsNewest(row, nextToken, now, front);
      DaemonStaysConsistent(row, nextToken, now, front);
      var s := ServedAll(Started(row, nextToken, now), front);
      assert MadeReady(s, s.token.value, last).0.world.row == MadeReady(s, s.token.value, last).0.world.latest;
    }
  }

  predicate Writes(outcome: Refreshing) {
    outcome.Answered? && outcome.rotates ==> outcome.written
  }
}
