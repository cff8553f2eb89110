/** The request limiter of the 123 open platform driver: a channel with room for `qps` tokens.

    A request takes a token before every attempt and gives all of its tokens back only when it returns;
    each given-back token leaves the channel one second later.
 */
module RequestTokens {

  import opened Wrappers

  /** Nanoseconds. */
  const SECOND: int := 1_000_000_000

  /** Where a request is inside its retry loop. */
  datatype Phase =
    | Auth       // before the access token is fetched
    | Waiting    // inside Require
    | InFlight   // between Require and the end of the attempt
    | Returned

  /** Why a token is still in the channel: its request has not returned, or its timer has not fired. */
  datatype Owner =
    | Held(call: nat)
    | Timed(due: int)

  /** `tokens` is the length of the channel. `log` are the times at which Require completed, and `slots` says
      of each completed Require whose token has not left the channel yet where that token is. */
  datatype State = State(
    qps: nat, now: int, tokens: nat, calls: seq<Phase>, slots: map<nat, Owner>, log: seq<int>)

  datatype Event =
    | Tick(time: int)
    | Start
    | GotToken(call: nat)
    | NoToken(call: nat)
    | Require(call: nat)
    | Retry(call: nat)
    | Return(call: nat)
    | Fire(slot: nat)

  function Init(qps: nat, time: int): State {
    State(qps, time, 0, [], map[], [])
  }

  predicate At(s: State, call: nat, phase: Phase) {
    call < |s.calls| && s.calls[call] == phase
  }

  /** The deferred Release calls of a returning request, one timer per token it took. */
  function Released(s: State, call: nat): State
    requires call < |s.calls|
  {
    s.(calls := s.calls[call := Returned],
       slots := map k | k in s.slots :: if s.slots[k] == Held(call) then Timed(s.now + SECOND) else s.slots[k])
  }

  /** The state after an event, or None when the event cannot happen. A full channel blocks Require. */
  function Step(s: State, e: Event): Option<State> {
    match e
    case Tick(time) => if time >= s.now then Some(s.(now := time)) else None
    case Start => Some(s.(calls := s.calls + [Auth]))
    case GotToken(c) => if At(s, c, Auth) then Some(s.(calls := s.calls[c := Waiting])) else None
    case NoToken(c) => if At(s, c, Auth) then Some(Released(s, c)) else None
    case Require(c) =>
      if At(s, c, Waiting) && s.tokens < s.qps then
        Some(s.(tokens := s.tokens + 1, calls := s.calls[c := InFlight],
                slots := s.slots[|s.log| := Held(c)], log := s.log + [s.now]))
      else None
    case Retry(c) => if At(s, c, InFlight) then Some(s.(calls := s.calls[c := Auth])) else None
    case Return(c) => if At(s, c, InFlight) then Some(Released(s, c)) else None
    case Fire(k) =>
      if k in s.slots && s.slots[k].Timed? && s.slots[k].due <= s.now && s.tokens > 0 then
        Some(s.(tokens := s.tokens - 1, slots := s.slots - {k}))
      else None
  }

  function Run(s: State, es: seq<Event>): Option<State>
    decreases |es|
  {
    if es == [] then Some(s)
    else
      match Step(s, es[0])
      case None => None
      case Some(s') => Run(s', es[1..])
  }

  /** ApiInfo: `tokens` is the length of the channel. Its callers and timers are kept as ghosts. */
  class ApiInfo {
    const qps: nat
    var tokens: nat
    ghost var now: int
    ghost var calls: seq<Phase>
    ghost var slots: map<nat, Owner>
    ghost var log: seq<int>

    ghost function Contents(): State
      reads this
    {
      State(qps, now, tokens, calls, slots, log)
    }

    constructor (qps: nat, ghost time: int)
      ensures Contents() == Init(qps, time)
    {
      this.qps, tokens := qps, 0;
      now, calls, slots, log := time, [], map[], [];
    }

    /** The moment at which a blocked Require finds room in the channel. */
    method Require(ghost call: nat)
      requires At(Contents(), call, Waiting) && tokens < qps
      modifies this
      ensures Step(old(Contents()), Event.Require(call)) == Some(Contents())
    {
      tokens := tokens + 1;
      slots := slots[|log| := Held(call)];
      calls, log := calls[call := InFlight], log + [now];
    }

    /** The deferred Release calls: the channel keeps the tokens until their timers fire. */
    method Release(ghost call: nat)
      requires At(Contents(), call, InFlight) || At(Contents(), call, Auth)
      modifies this
      ensures var e := if old(calls[call]) == Auth then NoToken(call) else Return(call);
              Step(old(Contents()), e) == Some(Contents())
      ensures tokens == old(tokens) && forall k | k in slots :: slots[k] != Held(call)
    {
      slots := Released(Contents(), call).slots;
      calls := calls[call := Returned];
    }

    /** A timer fires and takes one token out of the channel. */
    method TimerFires(ghost slot: nat)
      requires Step(Contents(), Fire(slot)).Some?
      modifies this
      ensures Step(old(Contents()), Fire(slot)) == Some(Contents())
    {
      tokens := tokens - 1;
      slots := slots - {slot};
    }
  }

  // ----- invariant -----

  /** The completions up to number `j` that are less than a second older than it. */
  ghost function Recent(log: seq<int>, j: nat): set<nat>
    requires j < |log|
  {
    set i: nat | i <= j && log[j] - SECOND < log[i]
  }

  ghost predicate SlotsInv(s: State) {
    && s.tokens == |s.slots| <= s.qps
    && (forall k | k in s.slots :: k < |s.log| && SlotInv(s.calls, s.log[k], s.slots[k]))
    && (forall i | 0 <= i < |s.log| :: s.log[i] <= s.now && (i !in s.slots ==> s.log[i] + SECOND <= s.now))
  }

  /** A token is held by a call still running, or waits for its timer, which fires no sooner than a second after it was taken. */
  ghost predicate SlotInv(calls: seq<Phase>, taken: int, slot: Owner) {
    match slot
    case Held(c) => c < |calls| && calls[c] != Returned
    case Timed(due) => taken + SECOND <= due
  }

  ghost predicate LogInv(log: seq<int>, qps: nat) {
    && (forall i, j | 0 <= i <= j < |log| :: log[i] <= log[j])
    && (forall j | 0 <= j < |log| :: |Recent(log, j)| <= qps)
  }

  ghost predicate Inv(s: State) {
    s.qps > 0 && SlotsInv(s) && LogInv(s.log, s.qps)
  }

  lemma SubsetSize(a: set<nat>, b: set<nat>)
    requires a <= b
    ensures |a| <= |b|
  {
    assert b == a + (b - a);
  }

  /** The state after a completed Require. */
  lemma RequireStep(s: State, c: nat)
    requires At(s, c, Waiting) && s.tokens < s.qps
    ensures Step(s, Require(c))
            == Some(s.(tokens := s.tokens + 1, calls := s.calls[c := InFlight],
                       slots := s.slots[|s.log| := Held(c)], log := s.log + [s.now]))
  {
  }

  lemma OneMoreSlot(slots: map<nat, Owner>, n: nat, o: Owner)
    requires n !in slots
    ensures |slots[n := o]| == |slots| + 1
  {
    assert slots[n := o].Keys == slots.Keys + {n};
    assert |slots.Keys + {n}| == |slots.Keys| + 1;
  }

  lemma SlotStays(s: State, c: nat, k: nat)
    requires SlotsInv(s) && At(s, c, Waiting) && k in s.slots
    ensures k < |s.log| && SlotInv(s.calls[c := InFlight], s.log[k], s.slots[k])
  {
    assert SlotInv(s.calls, s.log[k], s.slots[k]);
  }

  lemma RequireKeepsSlots(s: State, c: nat)
    requires SlotsInv(s) && At(s, c, Waiting) && s.tokens < s.qps
    ensures SlotsInv(Step(s, Require(c)).value)
  {
    hide Step, SlotInv;
    RequireStep(s, c);
    var n, calls, slots, log := |s.log|, s.calls[c := InFlight], s.slots[|s.log| := Held(c)], s.log + [s.now];
    OneMoreSlot(s.slots, n, Held(c));
    forall k | k in slots ensures k < n + 1 && SlotInv(calls, log[k], slots[k]) {
      if k == n {
        NewSlot(calls, s.now, c);
      } else {
        SlotStays(s, c, k);
      }
    }
    forall i | 0 <= i < n + 1 ensures log[i] <= s.now && (i !in slots ==> log[i] + SECOND <= s.now) {
      assert i < n ==> log[i] == s.log[i];
    }
  }

  lemma NewSlot(calls: seq<Phase>, taken: int, c: nat)
    requires c < |calls| && calls[c] == InFlight
    ensures SlotInv(calls, taken, Held(c))
  {
  }

  /** A completed Require: everything less than a second old still sits in the channel. */
  lemma RequireKeepsRate(s: State, s': State)
    requires SlotsInv(s) && LogInv(s.log, s.qps) && SlotsInv(s')
    requires s'.qps == s.qps && s'.now == s.now && s'.log == s.log + [s.now] && s.slots.Keys + {|s.log|} == s'.slots.Keys
    ensures LogInv(s'.log, s.qps)
  {
    hide Recent;
    var n := |s.log|;
    forall j | 0 <= j < |s'.log| ensures |Recent(s'.log, j)| <= s.qps {
      if j < n {
        RecentStays(s.log, s'.log, j);
      } else {
        RecentInChannel(s, s');
        SubsetSize(Recent(s'.log, n), s'.slots.Keys);
        assert |s'.slots.Keys| == |s'.slots|;
      }
    }
  }

  lemma RecentStays(a: seq<int>, b: seq<int>, j: nat)
    requires a <= b && j < |a|
    ensures Recent(b, j) == Recent(a, j)
  {
  }

  lemma RecentInChannel(s: State, s': State)
    requires SlotsInv(s) && s'.log == s.log + [s.now] && s.slots.Keys + {|s.log|} == s'.slots.Keys
    ensures Recent(s'.log, |s.log|) <= s'.slots.Keys
  {
  }

  lemma RequireKeepsInv(s: State, c: nat)
    requires Inv(s) && At(s, c, Waiting) && s.tokens < s.qps
    ensures Inv(Step(s, Require(c)).value)
  {
    RequireKeepsSlots(s, c);
    hide SlotsInv, LogInv;
    RequireKeepsRate(s, Step(s, Require(c)).value);
  }

  lemma ReleaseKeepsInv(s: State, c: nat)
    requires Inv(s) && c < |s.calls|
    ensures Inv(Released(s, c))
  {
    var s' := Released(s, c);
    assert s'.slots.Keys == s.slots.Keys;
    assert |s'.slots.Keys| == |s.slots.Keys|;
  }

  lemma FireKeepsInv(s: State, k: nat)
    requires Inv(s) && Step(s, Fire(k)).Some?
    ensures Inv(Step(s, Fire(k)).value)
  {
    hide LogInv;
    var s' := Step(s, Fire(k)).value;
    assert s'.slots.Keys == s.slots.Keys - {k};
    assert |s'.slots.Keys| == |s.slots.Keys| - 1;
  }

  lemma PhaseKeepsInv(s: State, calls: seq<Phase>, time: int)
    requires Inv(s) && time >= s.now && |s.calls| <= |calls|
    requires forall c | 0 <= c < |s.calls| :: s.calls[c] != Returned ==> calls[c] != Returned
    ensures Inv(s.(calls := calls, now := time))
  {
    hide LogInv;
  }

  lemma StepKeepsInv(s: State, e: Event)
    requires Inv(s) && Step(s, e).Some?
    ensures Inv(Step(s, e).value)
  {
    hide Inv;
    match e
    case Tick(time) => PhaseKeepsInv(s, s.calls, time);
    case Start => PhaseKeepsInv(s, s.calls + [Auth], s.now);
    case GotToken(c) => PhaseKeepsInv(s, s.calls[c := Waiting], s.now);
    case Retry(c) => PhaseKeepsInv(s, s.calls[c := Auth], s.now);
    case Require(c) => RequireKeepsInv(s, c);
    case NoToken(c) => ReleaseKeepsInv(s, c);
    case Return(c) => ReleaseKeepsInv(s, c);
    case Fire(k) => FireKeepsInv(s, k);
  }

  lemma {:induction false} RunKeepsInv(s: State, es: seq<Event>)
    requires Inv(s) && Run(s, es).Some?
    ensures Inv(Run(s, es).value)
    decreases |es|
  {
    if es != [] {
      StepKeepsInv(s, es[0]);
      RunKeepsInv(Step(s, es[0]).value, es[1..]);
    }
  }

  // ----- the rate -----

  /** The completions inside the second that ends at `time`. */
  ghost function Window(log: seq<int>, time: int): set<nat> {
    set i: nat | i < |log| && time - SECOND < log[i] <= time
  }

  lemma WindowWithinRecent(s: State, time: int)
    requires Inv(s)
    ensures |Window(s.log, time)| <= s.qps
  {
    var w := Window(s.log, time);
    if w != {} {
      var j := Latest(s.log, time, |s.log|);
      assert w <= Recent(s.log, j);
      SubsetSize(w, Recent(s.log, j));
    }
  }

  lemma {:induction false} Latest(log: seq<int>, time: int, n: nat) returns (j: nat)
    requires n <= |log| && exists i: nat :: i < n && i in Window(log, time)
    ensures j < n && j in Window(log, time) && forall i: nat | i < n && i in Window(log, time) :: i <= j
  {
    if n - 1 in Window(log, time) {
      j := n - 1;
    } else {
      j := Latest(log, time, n - 1);
    }
  }

  /** In every interleaving of requests, timers and the clock, at most `qps` Requires complete in any second. */
  lemma RateBound(qps: nat, start: int, es: seq<Event>, time: int)
    requires qps > 0 && Run(Init(qps, start), es).Some?
    ensures |Window(Run(Init(qps, start), es).value.log, time)| <= qps
  {
    RunKeepsInv(Init(qps, start), es);
    RunKeepsQps(Init(qps, start), es);
    WindowWithinRecent(Run(Init(qps, start), es).value, time);
  }

  lemma {:induction false} RunKeepsQps(s: State, es: seq<Event>)
    requires Run(s, es).Some?
    ensures Run(s, es).value.qps == s.qps
    decreases |es|
  {
    if es != [] {
      RunKeepsQps(Step(s, es[0]).value, es[1..]);
    }
  }

  /** The tokens of a returning request leave the channel from exactly one second after its return on. */
  lemma TokenLeavesExactly(s: State, c: nat, k: nat, time: int)
    requires Inv(s) && At(s, c, InFlight) && k in s.slots && s.slots[k] == Held(c) && time >= s.now
    ensures Run(s, [Return(c), Tick(time), Fire(k)]).Some? <==> time >= s.now + SECOND
  {
    hide Inv;
    var s1 := Step(s, Return(c)).value;
    var s2 := Step(s1, Tick(time)).value;
    assert s1.slots[k] == Timed(s.now + SECOND);
    ManyTokens(s, k);
    assert Run(s, [Return(c), Tick(time), Fire(k)]) == Run(s1, [Tick(time), Fire(k)]);
    assert Run(s1, [Tick(time), Fire(k)]) == Run(s2, [Fire(k)]);
    if Step(s2, Fire(k)).Some? {
      assert Run(s2, [Fire(k)]) == Run(Step(s2, Fire(k)).value, []);
    }
  }

  lemma ManyTokens(s: State, k: nat)
    requires Inv(s) && k in s.slots
    ensures s.tokens > 0
  {
    assert k in s.slots.Keys && |s.slots.Keys| == |s.slots|;
  }

  // ----- requests that block on their own tokens -----

  /** Every token in the full channel belongs to a request that is itself waiting for one. */
  ghost predicate Stuck(s: State) {
    && s.tokens >= s.qps
    && forall k | k in s.slots :: s.slots[k].Held? && At(s, s.slots[k].call, Waiting)
  }

  lemma StuckStays(s: State, e: Event)
    requires Stuck(s) && Step(s, e).Some?
    ensures Stuck(Step(s, e).value) && Step(s, e).value.log == s.log
  {
  }

  lemma {:induction false} StuckForever(s: State, es: seq<Event>)
    requires Stuck(s) && Run(s, es).Some?
    ensures Run(s, es).value.log == s.log
    decreases |es|
  {
    if es != [] {
      StuckStays(s, es[0]);
      StuckForever(Step(s, es[0]).value, es[1..]);
    }
  }

  /** From any state that is not stuck, a waiting request can be served. */
  lemma CanProceed(s: State, w: nat) returns (es: seq<Event>)
    requires Inv(s) && !Stuck(s) && At(s, w, Waiting)
    ensures Run(s, es).Some? && Run(s, es).value.log == s.log + [Run(s, es).value.now]
  {
    hide Recent, LogInv;
    if s.tokens < s.qps {
      es := [Require(w)];
      assert Run(s, es) == Run(Step(s, es[0]).value, []);
    } else {
      var k :| k in s.slots && !(s.slots[k].Held? && At(s, s.slots[k].call, Waiting));
      if s.slots[k].Timed? {
        es := ServeTimed(s, w, k);
      } else {
        es := ServeHeld(s, w, k, s.slots[k].call);
      }
    }
  }

  lemma ServeHeld(s: State, w: nat, k: nat, c: nat) returns (es: seq<Event>)
    requires Inv(s) && s.tokens == s.qps && At(s, w, Waiting) && k in s.slots && s.slots[k] == Held(c)
    requires At(s, c, Auth) || At(s, c, InFlight)
    ensures Run(s, es).Some? && Run(s, es).value.log == s.log + [Run(s, es).value.now]
  {
    hide Inv, Released, Step, Run;
    HeldReturns(s, w, k, c);
    var rest := ServeTimed(Released(s, c), w, k);
    var e := if s.calls[c] == Auth then NoToken(c) else Return(c);
    RunFirst(s, e, rest);
    es := [e] + rest;
  }

  /** A request that is not waiting can return, which starts the timers of its tokens. */
  lemma HeldReturns(s: State, w: nat, k: nat, c: nat)
    requires Inv(s) && At(s, w, Waiting) && k in s.slots && s.slots[k] == Held(c)
    requires At(s, c, Auth) || At(s, c, InFlight)
    ensures Step(s, if s.calls[c] == Auth then NoToken(c) else Return(c)) == Some(Released(s, c))
    ensures var s' := Released(s, c);
            && Inv(s') && s'.tokens == s.tokens && s'.qps == s.qps && s'.log == s.log
            && At(s', w, Waiting) && k in s'.slots && s'.slots[k].Timed?
  {
    hide Inv;
    ReleaseKeepsInv(s, c);
  }

  lemma RunFirst(s: State, e: Event, rest: seq<Event>)
    requires Step(s, e).Some?
    ensures Run(s, [e] + rest) == Run(Step(s, e).value, rest)
  {
    hide Step;
    assert ([e] + rest)[1..] == rest;
  }

  lemma ServeTimed(s: State, w: nat, k: nat) returns (es: seq<Event>)
    requires Inv(s) && s.tokens == s.qps && At(s, w, Waiting) && k in s.slots && s.slots[k].Timed?
    ensures Run(s, es).Some? && Run(s, es).value.log == s.log + [Run(s, es).value.now]
  {
    var time := if s.slots[k].due <= s.now then s.now else s.slots[k].due;
    es := [Tick(time), Fire(k), Require(w)];
    var s1 := Step(s, es[0]).value;
    var s2 := Step(s1, es[1]).value;
    var s3 := Step(s2, es[2]).value;
    assert es[1..] == [Fire(k), Require(w)] && es[1..][1..] == [Require(w)] && es[1..][1..][1..] == [];
    assert Run(s2, [Require(w)]) == Run(s3, []);
    assert Run(s1, es[1..]) == Run(s2, es[1..][1..]);
  }

  /** Exactly when waiting requests are blocked for good. */
  lemma BlockedExactly(s: State, w: nat)
    requires Inv(s) && At(s, w, Waiting)
    ensures Stuck(s) <==> forall es | Run(s, es).Some? :: Run(s, es).value.log == s.log
  {
    if Stuck(s) {
      forall es | Run(s, es).Some? ensures Run(s, es).value.log == s.log {
        StuckForever(s, es);
      }
    } else {
      var es := CanProceed(s, w);
      assert |Run(s, es).value.log| == |s.log| + 1;
    }
  }

  /** The tokens that request `w` has taken and not given back. */
  ghost function OwnTokens(s: State, w: nat): set<nat> {
    set k: nat | k in s.slots && s.slots[k] == Held(w)
  }

  /** One request that is told to retry `qps` times blocks itself. */
  lemma RetriesBlock(s: State, w: nat)
    requires Inv(s) && At(s, w, Waiting) && |OwnTokens(s, w)| >= s.qps
    ensures Stuck(s)
  {
    hide LogInv;
    var own := OwnTokens(s, w);
    assert own <= s.slots.Keys;
    assert s.slots.Keys == own + (s.slots.Keys - own);
    assert |s.slots.Keys| == |own| + |s.slots.Keys - own|;
    assert |s.slots| == |s.slots.Keys|;
    assert |s.slots.Keys - own| == 0;
    assert s.slots.Keys - own == {};
    forall k | k in s.slots ensures s.slots[k] == Held(w) {
      assert k !in s.slots.Keys - own;
    }
  }

  /** Endpoints with one request per second, such as the user information one: a single retry blocks them. */
  lemma OneRetryBlocks(start: int) returns (es: seq<Event>)
    ensures Run(Init(1, start), es).Some? && Stuck(Run(Init(1, start), es).value)
    ensures At(Run(Init(1, start), es).value, 0, Waiting)
  {
    es := [Start, GotToken(0), Require(0), Retry(0), GotToken(0)];
    var s1 := Step(Init(1, start), Start).value;
    var s2 := Step(s1, GotToken(0)).value;
    var s3 := Step(s2, Require(0)).value;
    var s4 := Step(s3, Retry(0)).value;
    var s5 := Step(s4, GotToken(0)).value;
    assert Run(s4, [GotToken(0)]) == Run(s5, []);
    assert Run(s3, [Retry(0), GotToken(0)]) == Run(s4, [GotToken(0)]);
    assert Run(s2, [Require(0), Retry(0), GotToken(0)]) == Run(s3, [Retry(0), GotToken(0)]);
    assert Run(s1, es[1..]) == Run(s2, [Require(0), Retry(0), GotToken(0)]);
  }
}
