/** The global registry of rate limiters of the Aliyun open driver, shared by all its driver instances.

    The limits are per user, so all instances of one user must wait on one limiter object for as long as
    any of them lives. The registry counts users and drops limiters nobody uses.
 */
module LimiterRegistry {

  import opened Wrappers

  /** The limiter every instance uses for its first request. */
  const GLOBAL_USER: string := ""

  // ----- the table -----

  /** `L` are the limiter objects; `usedBy` covers every limiter ever created. */
  datatype Table<L> = Table(limiters: map<string, L>, usedBy: map<L, int>)

  ghost predicate Closed<L>(t: Table<L>) {
    forall id | id in t.limiters :: t.limiters[id] in t.usedBy
  }

  ghost function Clean<L>(t: Table<L>): Table<L>
    requires Closed(t)
  {
    Table(map id | id in t.limiters && !(t.usedBy[t.limiters[id]] <= 0 && id != GLOBAL_USER) :: t.limiters[id], t.usedBy)
  }

  /** getLimiterForUser; `created` is the object made when the user has none. */
  ghost function Acquire<L>(t: Table<L>, id: string, created: L): (Table<L>, L)
    requires Closed(t)
  {
    if id in t.limiters then
      var l := t.limiters[id];
      (Clean(Table(t.limiters, t.usedBy[l := t.usedBy[l] + 1])), l)
    else
      (Clean(Table(t.limiters[id := created], t.usedBy[created := 1])), created)
  }

  ghost function Free<L>(t: Table<L>, l: L): Table<L>
    requires l in t.usedBy
  {
    Table(t.limiters, t.usedBy[l := t.usedBy[l] - 1])
  }

  // ----- the objects -----

  class Limiter {
    var usedBy: int

    constructor ()
      ensures usedBy == 1
    {
      usedBy := 1;
    }
  }

  /** The package-level map; both methods run under its lock. */
  class Registry {
    var limiters: map<string, Limiter>
    ghost var created: set<Limiter>

    ghost predicate Valid()
      reads this
    {
      forall id | id in limiters :: limiters[id] in created
    }

    ghost function Contents(): Table<Limiter>
      reads this, created
    {
      Table(limiters, map l | l in created :: l.usedBy)
    }

    constructor ()
      ensures Valid() && Contents() == Table(map[], map[])
    {
      limiters := map[];
      created := {};
    }

    method GetLimiterForUser(userid: string) returns (lim: Limiter)
      requires Valid()
      modifies this, created
      ensures Valid() && fresh(created - old(created)) && lim in created
      ensures userid !in old(limiters) ==> lim !in old(created)
      ensures (Contents(), lim) == Acquire(old(Contents()), userid, lim)
    {
      ghost var start := Contents();
      if userid in limiters {
        lim := limiters[userid];
        lim.usedBy := lim.usedBy + 1;
        assert Contents() == Table(start.limiters, start.usedBy[lim := start.usedBy[lim] + 1]);
      } else {
        lim := new Limiter();
        created := created + {lim};
        limiters := limiters[userid := lim];
        assert Contents() == Table(start.limiters[userid := lim], start.usedBy[lim := 1]);
      }
      CleanUp();
    }

    /** The deferred clean-up: limiters nobody uses are unregistered, except the global one. */
    method CleanUp()
      requires Valid()
      modifies this`limiters
      ensures Valid() && Contents() == Clean(old(Contents()))
    {
      ghost var start := Contents();
      limiters := map id | id in limiters && !(limiters[id].usedBy <= 0 && id != GLOBAL_USER) :: limiters[id];
      assert limiters == Clean(start).limiters;
    }

    /** `free`, with the nil receiver it tolerates. */
    method Release(lim: Limiter?)
      requires Valid() && (lim == null || lim in created)
      modifies created
      ensures Valid() && limiters == old(limiters)
      ensures Contents() == if lim == null then old(Contents()) else Free(old(Contents()), lim)
    {
      if lim == null {
        return;
      }
      lim.usedBy := lim.usedBy - 1;
    }
  }

  // ----- the drivers -----

  /** What a driver instance holds. Between the two acquisitions of Init it holds nothing. */
  datatype Phase<L> =
    | Idle
    | Initial(limiter: L)
    | Between
    | Live(user: string, limiter: L)

  datatype State<L> = State(table: Table<L>, drivers: seq<Phase<L>>)

  /** The steps that the lock makes atomic. `created` is the object made if one is needed. */
  datatype Event<L> =
    | InitStart(d: nat, created: L)
    | InitFail(d: nat)
    | InitSwitch(d: nat)
    | InitUser(d: nat, user: string, created: L)
    | Drop(d: nat)

  ghost predicate Holds<L>(p: Phase<L>, l: L) {
    (p.Initial? || p.Live?) && p.limiter == l
  }

  /** How many of the first `n` drivers hold `l`. */
  ghost function Holders<L>(drivers: seq<Phase<L>>, l: L, n: nat): nat
    requires n <= |drivers|
  {
    if n == 0 then 0 else Holders(drivers, l, n - 1) + if Holds(drivers[n - 1], l) then 1 else 0
  }

  /** The id under which a holding driver found its limiter. */
  ghost function UserOf<L>(p: Phase<L>): string
    requires p.Initial? || p.Live?
  {
    if p.Initial? then GLOBAL_USER else p.user
  }

  ghost function Take<L>(s: State<L>, d: nat, id: string, created: L): State<L>
    requires d < |s.drivers| && Closed(s.table)
  {
    var (table, l) := Acquire(s.table, id, created);
    State(table, s.drivers[d := if s.drivers[d].Between? then Live(id, l) else Initial(l)])
  }

  ghost function GiveBack<L>(s: State<L>, d: nat, next: Phase<L>): State<L>
    requires d < |s.drivers| && (s.drivers[d].Initial? || s.drivers[d].Live?) && s.drivers[d].limiter in s.table.usedBy
  {
    State(Free(s.table, s.drivers[d].limiter), s.drivers[d := next])
  }

  /** Every object that the table or a driver points to exists. */
  ghost predicate WellFormed<L>(s: State<L>) {
    && Closed(s.table)
    && forall d | 0 <= d < |s.drivers| :: s.drivers[d].Initial? || s.drivers[d].Live? ==> s.drivers[d].limiter in s.table.usedBy
  }

  /** Init and Drop of one driver alternate; everything else may interleave. */
  ghost function Step<L>(s: State<L>, e: Event<L>): (r: Option<State<L>>)
    requires WellFormed(s)
    ensures r.Some? ==> WellFormed(r.value)
  {
    if e.d >= |s.drivers| then None
    else
      var p := s.drivers[e.d];
      match e
      case InitStart(d, created) =>
        if p.Idle? && created !in s.table.usedBy then Some(Take(s, d, GLOBAL_USER, created)) else None
      case InitFail(d) => if p.Initial? then Some(GiveBack(s, d, Idle)) else None
      case InitSwitch(d) => if p.Initial? then Some(GiveBack(s, d, Between)) else None
      case InitUser(d, user, created) =>
        if p.Between? && created !in s.table.usedBy then Some(Take(s, d, user, created)) else None
      case Drop(d) => if p.Live? then Some(GiveBack(s, d, Idle)) else if p.Idle? then Some(s) else None
  }

  // ----- what every run keeps -----

  ghost predicate Inv<L>(s: State<L>) {
    && WellFormed(s)
    && (forall id | id in s.table.limiters ::
          s.table.usedBy[s.table.limiters[id]] == Holders(s.drivers, s.table.limiters[id], |s.drivers|))
    && (forall d | 0 <= d < |s.drivers| :: Registered(s.table, s.drivers[d]))
    && (forall a, b | a in s.table.limiters && b in s.table.limiters && a != b ::
          s.table.limiters[a] != s.table.limiters[b])
  }

  /** A held limiter is the one registered for its user. */
  ghost predicate Registered<L>(t: Table<L>, p: Phase<L>) {
    p.Initial? || p.Live? ==> UserOf(p) in t.limiters && t.limiters[UserOf(p)] == p.limiter
  }

  lemma {:induction false} HoldersUpdate<L>(drivers: seq<Phase<L>>, d: nat, p: Phase<L>, l: L, n: nat)
    requires d < |drivers| && n <= |drivers|
    ensures Holders(drivers[d := p], l, n) ==
              Holders(drivers, l, n)
              + (if d < n then (if Holds(p, l) then 1 else 0) - (if Holds(drivers[d], l) then 1 else 0) else 0)
  {
    if n > 0 {
      HoldersUpdate(drivers, d, p, l, n - 1);
    }
  }

  lemma {:induction false} HeldCounts<L>(drivers: seq<Phase<L>>, d: nat, l: L, n: nat)
    requires d < n <= |drivers| && Holds(drivers[d], l)
    ensures Holders(drivers, l, n) > 0
  {
    if d < n - 1 {
      HeldCounts(drivers, d, l, n - 1);
    }
  }

  lemma {:induction false} NewIsUnheld<L>(s: State<L>, l: L, n: nat)
    requires n <= |s.drivers| && l !in s.table.usedBy && Closed(s.table)
    requires forall d | 0 <= d < |s.drivers| :: Registered(s.table, s.drivers[d])
    ensures Holders(s.drivers, l, n) == 0
  {
    if n > 0 {
      NewIsUnheld(s, l, n - 1);
      assert Registered(s.table, s.drivers[n - 1]);
    }
  }

  /** The counters and holders agree, before the clean-up of an acquisition. */
  lemma CountsAfterTake<L>(s: State<L>, d: nat, p: Phase<L>, id: string, limiters: map<string, L>, usedBy: map<L, int>, l: L)
    requires Inv(s) && d < |s.drivers| && !(s.drivers[d].Initial? || s.drivers[d].Live?)
    requires Holds(p, l) && UserOf(p) == id
    requires if id in s.table.limiters
             then l == s.table.limiters[id] && limiters == s.table.limiters && usedBy == s.table.usedBy[l := s.table.usedBy[l] + 1]
             else l !in s.table.usedBy && limiters == s.table.limiters[id := l] && usedBy == s.table.usedBy[l := 1]
    ensures var drivers := s.drivers[d := p];
            && (forall k | k in limiters :: limiters[k] in usedBy && usedBy[limiters[k]] == Holders(drivers, limiters[k], |drivers|))
            && (forall a, b | a in limiters && b in limiters && a != b :: limiters[a] != limiters[b])
            && (forall c | 0 <= c < |drivers| :: Registered(Table(limiters, usedBy), drivers[c]))
  {
    var drivers := s.drivers[d := p];
    if id !in s.table.limiters {
      NewIsUnheld(s, l, |s.drivers|);
    }
    forall k | k in limiters
      ensures limiters[k] in usedBy && usedBy[limiters[k]] == Holders(drivers, limiters[k], |drivers|)
    {
      HoldersUpdate(s.drivers, d, p, limiters[k], |s.drivers|);
    }
  }

  /** The clean-up drops no limiter that some driver holds. */
  lemma CleanKeepsInv<L>(s: State<L>)
    requires Inv(s)
    ensures Inv(State(Clean(s.table), s.drivers))
    ensures forall id | id in s.table.limiters && Holders(s.drivers, s.table.limiters[id], |s.drivers|) > 0 ::
              id in Clean(s.table).limiters
  {
    var t := Clean(s.table);
    forall d | 0 <= d < |s.drivers| ensures Registered(t, s.drivers[d]) {
      var p := s.drivers[d];
      if p.Initial? || p.Live? {
        HeldCounts(s.drivers, d, p.limiter, |s.drivers|);
      }
    }
  }

  lemma TakeKeepsInv<L>(s: State<L>, d: nat, id: string, created: L)
    requires Inv(s) && d < |s.drivers| && created !in s.table.usedBy
    requires s.drivers[d].Between? || (s.drivers[d].Idle? && id == GLOBAL_USER)
    ensures Inv(Take(s, d, id, created))
  {
    var t := s.table;
    var l := if id in t.limiters then t.limiters[id] else created;
    var p := if s.drivers[d].Between? then Live(id, l) else Initial(l);
    var limiters := if id in t.limiters then t.limiters else t.limiters[id := l];
    var usedBy := t.usedBy[l := if id in t.limiters then t.usedBy[l] + 1 else 1];
    CountsAfterTake(s, d, p, id, limiters, usedBy, l);
    CleanKeepsInv(State(Table(limiters, usedBy), s.drivers[d := p]));
  }

  lemma GiveBackKeepsInv<L>(s: State<L>, d: nat, next: Phase<L>)
    requires Inv(s) && d < |s.drivers| && (s.drivers[d].Initial? || s.drivers[d].Live?)
    requires next.Idle? || next.Between?
    ensures s.drivers[d].limiter in s.table.usedBy
    ensures Inv(GiveBack(s, d, next))
  {
    assert Registered(s.table, s.drivers[d]);
    var s' := GiveBack(s, d, next);
    forall id | id in s'.table.limiters
      ensures s'.table.usedBy[s'.table.limiters[id]] == Holders(s'.drivers, s'.table.limiters[id], |s'.drivers|)
    {
      HoldersUpdate(s.drivers, d, next, s.table.limiters[id], |s.drivers|);
    }
    forall c | 0 <= c < |s'.drivers| ensures Registered(s'.table, s'.drivers[c]) {
      assert Registered(s.table, s.drivers[c]);
    }
  }

  lemma StepKeepsInv<L>(s: State<L>, e: Event<L>)
    requires Inv(s) && Step(s, e).Some?
    ensures Inv(Step(s, e).value)
  {
    match e
    case InitStart(d, created) => TakeKeepsInv(s, d, GLOBAL_USER, created);
    case InitFail(d) => GiveBackKeepsInv(s, d, Idle);
    case InitSwitch(d) => GiveBackKeepsInv(s, d, Between);
    case InitUser(d, user, created) => TakeKeepsInv(s, d, user, created);
    case Drop(d) =>
      if s.drivers[d].Live? {
        GiveBackKeepsInv(s, d, Idle);
      }
  }

  ghost function Run<L>(s: State<L>, es: seq<Event<L>>): Option<State<L>>
    requires WellFormed(s)
    decreases |es|
  {
    if es == [] then Some(s)
    else
      match Step(s, es[0])
      case None => None
      case Some(s') => Run(s', es[1..])
  }

  ghost function Fresh<L>(n: nat): (s: State<L>)
    ensures WellFormed(s)
  {
    State(Table(map[], map[]), seq(n, _ => Idle))
  }

  lemma {:induction false} RunKeepsInv<L>(s: State<L>, es: seq<Event<L>>)
    requires Inv(s) && Run(s, es).Some?
    ensures Inv(Run(s, es).value)
    decreases |es|
  {
    if es != [] {
      StepKeepsInv(s, es[0]);
      RunKeepsInv(Step(s, es[0]).value, es[1..]);
    }
  }

  /** After an acquisition a user has a limiter registered exactly when some driver holds it; the limiter for first
      requests stays registered once it is there. */
  lemma RegisteredExactly<L>(s: State<L>, d: nat, id: string, created: L, user: string)
    requires Inv(s) && d < |s.drivers| && created !in s.table.usedBy
    requires s.drivers[d].Between? || (s.drivers[d].Idle? && id == GLOBAL_USER)
    ensures var s' := Take(s, d, id, created);
            && WellFormed(s')
            && (user in s'.table.limiters <==>
                  || (exists c | 0 <= c < |s'.drivers| ::
                        (s'.drivers[c].Initial? || s'.drivers[c].Live?) && UserOf(s'.drivers[c]) == user)
                  || (user == GLOBAL_USER && user in s.table.limiters))
  {
    TakeKeepsInv(s, d, id, created);
    var s' := Take(s, d, id, created);
    if user in s'.table.limiters && user != GLOBAL_USER {
      var l := s'.table.limiters[user];
      var c := SomeHolder(s'.drivers, l, |s'.drivers|);
      assert Registered(s'.table, s'.drivers[c]);
    }
    if c :| 0 <= c < |s'.drivers| && (s'.drivers[c].Initial? || s'.drivers[c].Live?) && UserOf(s'.drivers[c]) == user {
      assert Registered(s'.table, s'.drivers[c]);
    }
    if user == GLOBAL_USER && user in s'.table.limiters && user !in s.table.limiters {
      assert Registered(s'.table, s'.drivers[d]);
    }
  }

  lemma {:induction false} SomeHolder<L>(drivers: seq<Phase<L>>, l: L, n: nat) returns (c: nat)
    requires n <= |drivers| && Holders(drivers, l, n) > 0
    ensures c < n && Holds(drivers[c], l)
  {
    if Holds(drivers[n - 1], l) {
      c := n - 1;
    } else {
      c := SomeHolder(drivers, l, n - 1);
    }
  }

  /** The limiter for first requests is never replaced. */
  lemma {:induction false} GlobalStays<L>(s: State<L>, es: seq<Event<L>>)
    requires WellFormed(s) && Run(s, es).Some? && GLOBAL_USER in s.table.limiters
    ensures var after := Run(s, es).value.table.limiters;
            GLOBAL_USER in after && after[GLOBAL_USER] == s.table.limiters[GLOBAL_USER]
    decreases |es|
  {
    if es != [] {
      GlobalStays(Step(s, es[0]).value, es[1..]);
    }
  }

  /** In every interleaving of the life cycles of `n` drivers, the counter of a registered limiter is the number
      of drivers holding it, a held limiter is registered, and two drivers share a limiter exactly when they hold
      one for the same user. */
  lemma RegistrySafety<L>(n: nat, es: seq<Event<L>>, s: State<L>, c: nat, d: nat)
    requires Run(Fresh<L>(n), es) == Some(s) && c < |s.drivers| && d < |s.drivers|
    requires (s.drivers[c].Initial? || s.drivers[c].Live?) && (s.drivers[d].Initial? || s.drivers[d].Live?)
    ensures s.drivers[c].limiter in s.table.limiters.Values && s.drivers[c].limiter in s.table.usedBy
    ensures s.table.usedBy[s.drivers[c].limiter] == Holders(s.drivers, s.drivers[c].limiter, |s.drivers|) > 0
    ensures s.drivers[c].limiter == s.drivers[d].limiter <==> UserOf(s.drivers[c]) == UserOf(s.drivers[d])
  {
    NothingHeld<L>(n);
    RunKeepsInv(Fresh<L>(n), es);
    assert Registered(s.table, s.drivers[c]) && Registered(s.table, s.drivers[d]);
    HeldCounts(s.drivers, c, s.drivers[c].limiter, |s.drivers|);
  }

  lemma NothingHeld<L>(n: nat)
    ensures Inv(Fresh<L>(n))
  {
  }
}
