/**
  The usage registry of crates/metrics/src/lib.rs under concurrent callers.

  A state holds the shared map and counters and one record per call made so far. Every lock section,
  every atomic add and every guard drop is a step of its own, and any call may take the next step.
 */
module Metrics {

  const U64: int := 0x1_0000_0000_0000_0000
  const I64_MAX: int := 0x7fff_ffff_ffff_ffff
  const I64_MIN: int := -0x8000_0000_0000_0000

  type Counter = x: int | 0 <= x < 0x1_0000_0000_0000_0000

  type Gauge = x: int | -0x8000_0000_0000_0000 <= x < 0x8000_0000_0000_0000

  /** `fetch_add` on an unsigned counter wraps. */
  function FetchAdd(x: Counter, n: Counter): Counter {
    if x as int + n as int < U64 then x as int + n as int else x as int + n as int - U64
  }

  function Increment(x: Gauge): Gauge {
    if x == I64_MAX then I64_MIN else x as int + 1
  }

  function Decrement(x: Gauge): Gauge {
    if x == I64_MIN then I64_MAX else x as int - 1
  }

  /** The counters every user has, and of which the registry keeps a total. */
  datatype Quantity = BytesIn | BytesOut | Connections

  datatype UserStats = UserStats(email: string, bytesIn: Counter, bytesOut: Counter, totalConns: Counter, active: Gauge)

  datatype Totals = Totals(bytesIn: Counter, bytesOut: Counter, conns: Counter)

  function Get(u: UserStats, q: Quantity): Counter {
    match q
    case BytesIn => u.bytesIn
    case BytesOut => u.bytesOut
    case Connections => u.totalConns
  }

  function AddTo(u: UserStats, q: Quantity, n: Counter): UserStats {
    match q
    case BytesIn => u.(bytesIn := FetchAdd(u.bytesIn, n))
    case BytesOut => u.(bytesOut := FetchAdd(u.bytesOut, n))
    case Connections => u.(totalConns := FetchAdd(u.totalConns, n))
  }

  function Total(t: Totals, q: Quantity): Counter {
    match q
    case BytesIn => t.bytesIn
    case BytesOut => t.bytesOut
    case Connections => t.conns
  }

  function AddToTotal(t: Totals, q: Quantity, n: Counter): Totals {
    match q
    case BytesIn => t.(bytesIn := FetchAdd(t.bytesIn, n))
    case BytesOut => t.(bytesOut := FetchAdd(t.bytesOut, n))
    case Connections => t.(conns := FetchAdd(t.conns, n))
  }

  /** `record_bytes_in`, `record_bytes_out` and `connection_started`. */
  datatype Op = RecordIn(n: Counter) | RecordOut(n: Counter) | ConnectionStarted

  function QuantityOf(op: Op): Quantity {
    match op
    case RecordIn(_) => BytesIn
    case RecordOut(_) => BytesOut
    case ConnectionStarted => Connections
  }

  function Amount(op: Op): Counter {
    match op
    case RecordIn(n) => n
    case RecordOut(n) => n
    case ConnectionStarted => 1
  }

  /** Where a call stands; `i` is the `UserStats` it got from `get_or_create`. */
  datatype Pc =
    | Looking            // about to look the email up under the read lock
    | Missing            // not found; about to insert under the write lock
    | Holding(i: nat)    // has the stats
    | Activated(i: nat)  // gauge raised (connections only)
    | UserAdded(i: nat)  // the user's counter raised, the total not yet
    | Returned(i: nat)   // a byte recorder that has returned
    | Guarding(i: nat)   // connection_started has returned and its guard is alive
    | Dropped(i: nat)    // the guard was dropped
    | Ignored            // returned at once: empty email or zero bytes

  datatype Call = Call(op: Op, email: string, pc: Pc)

  datatype State = State(users: map<string, nat>, stats: seq<UserStats>, totals: Totals, calls: seq<Call>)

  function Init(): State {
    State(map[], [], Totals(0, 0, 0), [])
  }

  datatype Step = Begin(op: Op, email: string) | Advance(k: nat)

  function Started(op: Op, email: string): Call {
    if email == "" || Amount(op) == 0 then Call(op, email, Ignored) else Call(op, email, Looking)
  }

  function Idle(pc: Pc): bool { pc.Returned? || pc.Dropped? || pc.Ignored? }

  predicate Enabled(s: State, step: Step) {
    step.Begin? || (step.k < |s.calls| && !Idle(s.calls[step.k].pc))
  }

  function At(s: State, k: nat, pc: Pc): State
    requires k < |s.calls|
  {
    s.(calls := s.calls[k := s.calls[k].(pc := pc)])
  }

  /** `entry(email).or_insert_with(default)` under the write lock. */
  function InsertIfAbsent(s: State, email: string): State {
    if email in s.users then s
    else s.(users := s.users[email := |s.stats|], stats := s.stats + [UserStats(email, 0, 0, 0, 0)])
  }

  /** The index a call holds, or -1. */
  function Index(pc: Pc): int {
    match pc
    case Looking => -1
    case Missing => -1
    case Ignored => -1
    case Holding(i) => i
    case Activated(i) => i
    case UserAdded(i) => i
    case Returned(i) => i
    case Guarding(i) => i
    case Dropped(i) => i
  }

  function Touch(s: State, i: nat, u: UserStats): State
    requires i < |s.stats|
  {
    s.(stats := s.stats[i := u])
  }

  function RaiseGauge(s: State, k: nat, i: nat): State
    requires k < |s.calls| && i < |s.stats|
  {
    At(Touch(s, i, s.stats[i].(active := Increment(s.stats[i].active))), k, Activated(i))
  }

  function UserAdd(s: State, k: nat, i: nat): State
    requires k < |s.calls| && i < |s.stats|
  {
    var op := s.calls[k].op;
    At(Touch(s, i, AddTo(s.stats[i], QuantityOf(op), Amount(op))), k, UserAdded(i))
  }

  function TotalAdd(s: State, k: nat, i: nat): State
    requires k < |s.calls|
  {
    var op := s.calls[k].op;
    At(s.(totals := AddToTotal(s.totals, QuantityOf(op), Amount(op))), k,
       if op.ConnectionStarted? then Guarding(i) else Returned(i))
  }

  /** `ConnectionGuard::drop` */
  function DropGuard(s: State, k: nat, i: nat): State
    requires k < |s.calls| && i < |s.stats|
  {
    At(Touch(s, i, s.stats[i].(active := Decrement(s.stats[i].active))), k, Dropped(i))
  }

  /** The next step of call `k`. A call never holds an index out of range, see `Registered`. */
  function Move(s: State, k: nat): State
    requires k < |s.calls|
  {
    var c := s.calls[k];
    if Index(c.pc) >= |s.stats| then s else
    match c.pc
    case Looking => At(s, k, if c.email in s.users then Holding(s.users[c.email]) else Missing)
    case Missing => At(InsertIfAbsent(s, c.email), k, Holding(InsertIfAbsent(s, c.email).users[c.email]))
    case Holding(i) => if c.op.ConnectionStarted? then RaiseGauge(s, k, i) else UserAdd(s, k, i)
    case Activated(i) => UserAdd(s, k, i)
    case UserAdded(i) => TotalAdd(s, k, i)
    case Guarding(i) => DropGuard(s, k, i)
    case _ => s
  }

  // ---- sums over calls ----

  /** What a sum over the calls is about. */
  datatype View =
    | OfUser(i: nat, q: Quantity)           // added to the user's counter
    | OfTotal(q: Quantity)                  // added to the total
    | Pending(q: Quantity)                  // added to the user's counter and not yet to the total
    | ActiveOf(i: nat)                      // raising the gauge
    | Asked(email: string, q: Quantity)     // asked for by the caller

  /** The call has raised the user's counter. */
  predicate Posted(pc: Pc) { pc.UserAdded? || pc.Returned? || pc.Guarding? || pc.Dropped? }

  /** The call has raised the total. */
  predicate Counted(pc: Pc) { pc.Returned? || pc.Guarding? || pc.Dropped? }

  /** The call has raised the gauge and its guard has not been dropped. */
  predicate Active(c: Call) { c.pc.Activated? || (c.pc.UserAdded? && c.op.ConnectionStarted?) || c.pc.Guarding? }

  function Weight(c: Call, v: View): nat {
    match v
    case OfUser(i, q) => if Posted(c.pc) && Index(c.pc) == i && QuantityOf(c.op) == q then Amount(c.op) else 0
    case OfTotal(q) => if Counted(c.pc) && QuantityOf(c.op) == q then Amount(c.op) else 0
    case Pending(q) => if c.pc.UserAdded? && QuantityOf(c.op) == q then Amount(c.op) else 0
    case ActiveOf(i) => if Active(c) && Index(c.pc) == i then 1 else 0
    case Asked(email, q) => if c.email == email && QuantityOf(c.op) == q then Amount(c.op) else 0
  }

  function Sum(calls: seq<Call>, v: View): nat {
    if calls == [] then 0 else Weight(calls[0], v) + Sum(calls[1..], v)
  }

  lemma {:induction false} SumUpdate(calls: seq<Call>, k: nat, c: Call, v: View)
    requires k < |calls|
    ensures Sum(calls[k := c], v) == Sum(calls, v) - Weight(calls[k], v) + Weight(c, v)
  {
    if k == 0 {
      assert calls[k := c][1..] == calls[1..];
    } else {
      assert calls[k := c][1..] == calls[1..][k - 1 := c];
      SumUpdate(calls[1..], k - 1, c, v);
    }
  }

  lemma {:induction false} SumAppend(calls: seq<Call>, c: Call, v: View)
    ensures Sum(calls + [c], v) == Sum(calls, v) + Weight(c, v)
  {
    if calls == [] {
      assert calls + [c] == [c];
      assert Sum([c], v) == Weight(c, v) + Sum([], v);
    } else {
      assert (calls + [c])[1..] == calls[1..] + [c];
      SumAppend(calls[1..], c, v);
    }
  }

  /** No call contributes to stats that do not exist yet. */
  lemma {:induction false} SumFresh(calls: seq<Call>, i: nat, v: View)
    requires forall k :: 0 <= k < |calls| ==> Index(calls[k].pc) < i
    requires v == ActiveOf(i) || (v.OfUser? && v.i == i)
    ensures Sum(calls, v) == 0
  {
    if calls != [] {
      assert Index(calls[0].pc) < i;
      SumFresh(calls[1..], i, v);
    }
  }

  // ---- the invariant ----

  /** A wrapped counter shows `sum` modulo 2^64. */
  ghost predicate Shows(x: int, sum: int) {
    exists turns: int :: x + turns * U64 == sum
  }

  lemma {:induction false} ShowsAdd(x: Counter, n: Counter, sum: int)
    requires Shows(x, sum)
    ensures Shows(FetchAdd(x, n), sum + n)
  {
    var turns :| x + turns * U64 == sum;
    if x as int + n as int < U64 {
      assert FetchAdd(x, n) + turns * U64 == sum + n;
    } else {
      assert FetchAdd(x, n) + (turns + 1) * U64 == sum + n;
    }
  }

  lemma {:induction false} ShowsStep(x: Gauge, sum: int)
    requires Shows(x, sum)
    ensures Shows(Increment(x), sum + 1) && Shows(Decrement(x), sum - 1)
  {
    var turns :| x + turns * U64 == sum;
    var up := if x == I64_MAX then turns + 1 else turns;
    var down := if x == I64_MIN then turns - 1 else turns;
    assert Increment(x) + up * U64 == sum + 1;
    assert Decrement(x) + down * U64 == sum - 1;
  }

  /** One `UserStats` per email, and every call holds the one of its email. */
  ghost predicate Registered(s: State) {
    && (forall e :: e in s.users ==> s.users[e] < |s.stats| && s.stats[s.users[e]].email == e)
    && (forall i :: 0 <= i < |s.stats| ==> s.stats[i].email in s.users && s.users[s.stats[i].email] == i)
    && "" !in s.users
    && (forall k :: 0 <= k < |s.calls| ==> Holds(s, s.calls[k]))
  }

  ghost predicate Holds(s: State, c: Call) {
    && Index(c.pc) < |s.stats| && (0 <= Index(c.pc) ==> s.stats[Index(c.pc)].email == c.email)
    && (c.pc.Activated? || c.pc.Guarding? || c.pc.Dropped? ==> c.op.ConnectionStarted?)
    && (c.pc.Returned? ==> !c.op.ConnectionStarted?)
    && (c.pc.Ignored? <==> c.email == "" || Amount(c.op) == 0)
  }

  ghost predicate UserLedger(s: State, i: nat, q: Quantity)
    requires i < |s.stats|
  {
    Shows(Get(s.stats[i], q), Sum(s.calls, OfUser(i, q)))
  }

  ghost predicate TotalLedger(s: State, q: Quantity) {
    Shows(Total(s.totals, q), Sum(s.calls, OfTotal(q)))
  }

  ghost predicate GaugeLedger(s: State, i: nat)
    requires i < |s.stats|
  {
    Shows(s.stats[i].active, Sum(s.calls, ActiveOf(i)))
  }

  ghost predicate Ledger(s: State) {
    && (forall i, q :: 0 <= i < |s.stats| ==> UserLedger(s, i, q))
    && (forall q :: TotalLedger(s, q))
    && (forall i :: 0 <= i < |s.stats| ==> GaugeLedger(s, i))
  }

  lemma {:induction false} BeginKeeps(s: State, op: Op, email: string)
    requires Registered(s) && Ledger(s)
    ensures var t := s.(calls := s.calls + [Started(op, email)]);
            Registered(t) && Ledger(t)
  {
    var c := Started(op, email);
    var t := s.(calls := s.calls + [c]);
    forall v: View | !v.Asked? ensures Sum(t.calls, v) == Sum(s.calls, v) {
      SumAppend(s.calls, c, v);
    }
    forall i, q | 0 <= i < |t.stats| ensures UserLedger(t, i, q) { assert UserLedger(s, i, q); }
    forall q ensures TotalLedger(t, q) { assert TotalLedger(s, q); }
    forall i | 0 <= i < |t.stats| ensures GaugeLedger(t, i) { assert GaugeLedger(s, i); }
    forall k | 0 <= k < |t.calls| ensures Holds(t, t.calls[k]) {
      if k < |s.calls| { assert Holds(s, s.calls[k]); }
    }
  }

  /** A call that only moves on, without touching a counter, keeps every sum. */
  lemma {:induction false} QuietMoveKeeps(s: State, k: nat, pc: Pc)
    requires Registered(s) && Ledger(s) && k < |s.calls|
    requires Index(s.calls[k].pc) == -1 && (pc.Missing? || pc.Holding?)
    requires Holds(s, s.calls[k].(pc := pc))
    ensures Registered(At(s, k, pc)) && Ledger(At(s, k, pc))
  {
    var t := At(s, k, pc);
    forall v: View ensures Sum(t.calls, v) == Sum(s.calls, v) {
      SumUpdate(s.calls, k, t.calls[k], v);
    }
    forall i, q | 0 <= i < |t.stats| ensures UserLedger(t, i, q) { assert UserLedger(s, i, q); }
    forall q ensures TotalLedger(t, q) { assert TotalLedger(s, q); }
    forall i | 0 <= i < |t.stats| ensures GaugeLedger(t, i) { assert GaugeLedger(s, i); }
    forall j | 0 <= j < |t.calls| ensures Holds(t, t.calls[j]) {
      assert Holds(s, s.calls[j]);
    }
  }

  lemma {:induction false} InsertKeeps(s: State, email: string)
    requires Registered(s) && Ledger(s) && email != ""
    ensures var t := InsertIfAbsent(s, email);
            && Registered(t) && Ledger(t) && email in t.users && t.stats[t.users[email]].email == email
            && t.calls == s.calls
  {
    var t := InsertIfAbsent(s, email);
    if email !in s.users {
      var m := |s.stats|;
      forall k | 0 <= k < |s.calls| ensures Index(s.calls[k].pc) < m && Holds(t, s.calls[k]) {
        assert Holds(s, s.calls[k]);
      }
      forall i, q | 0 <= i < |t.stats| ensures UserLedger(t, i, q) {
        if i < m { assert UserLedger(s, i, q); } else { SumFresh(s.calls, m, OfUser(m, q)); assert 0 + 0 * U64 == 0; }
      }
      forall q ensures TotalLedger(t, q) { assert TotalLedger(s, q); }
      forall i | 0 <= i < |t.stats| ensures GaugeLedger(t, i) {
        if i < m { assert GaugeLedger(s, i); } else { SumFresh(s.calls, m, ActiveOf(m)); assert 0 + 0 * U64 == 0; }
      }
    }
  }

  /** Replacing the counters of stats a call holds leaves the registry as it was. */
  lemma {:induction false} TouchRegistered(s: State, k: nat, u: UserStats, pc: Pc)
    requires Registered(s) && k < |s.calls| && 0 <= Index(s.calls[k].pc) == Index(pc) < |s.stats|
    requires u.email == s.stats[Index(pc)].email && Holds(s, s.calls[k].(pc := pc))
    ensures Registered(At(Touch(s, Index(pc), u), k, pc))
  {
    var t := At(Touch(s, Index(pc), u), k, pc);
    forall i | 0 <= i < |t.stats| ensures t.stats[i].email == s.stats[i].email { }
    forall j | 0 <= j < |t.calls| ensures Holds(t, t.calls[j]) {
      assert Holds(s, s.calls[j]);
    }
  }

  lemma {:induction false} UserAddKeeps(s: State, k: nat, i: nat)
    requires Registered(s) && Ledger(s) && k < |s.calls| && i < |s.stats|
    requires var c := s.calls[k]; c.pc == Activated(i) || (c.pc == Holding(i) && !c.op.ConnectionStarted?)
    ensures Registered(UserAdd(s, k, i)) && Ledger(UserAdd(s, k, i))
  {
    var c, t := s.calls[k], UserAdd(s, k, i);
    assert Holds(s, c);
    TouchRegistered(s, k, t.stats[i], UserAdded(i));
    forall j, q | 0 <= j < |t.stats| ensures UserLedger(t, j, q) {
      assert UserLedger(s, j, q);
      SumUpdate(s.calls, k, t.calls[k], OfUser(j, q));
      if j == i && q == QuantityOf(c.op) {
        ShowsAdd(Get(s.stats[i], q), Amount(c.op), Sum(s.calls, OfUser(i, q)));
      }
    }
    forall q ensures TotalLedger(t, q) {
      assert TotalLedger(s, q);
      SumUpdate(s.calls, k, t.calls[k], OfTotal(q));
    }
    forall j | 0 <= j < |t.stats| ensures GaugeLedger(t, j) {
      assert GaugeLedger(s, j);
      SumUpdate(s.calls, k, t.calls[k], ActiveOf(j));
    }
  }

  lemma {:induction false} TotalAddKeeps(s: State, k: nat, i: nat)
    requires Registered(s) && Ledger(s) && k < |s.calls| && s.calls[k].pc == UserAdded(i)
    ensures Registered(TotalAdd(s, k, i)) && Ledger(TotalAdd(s, k, i))
  {
    var c, t := s.calls[k], TotalAdd(s, k, i);
    forall j | 0 <= j < |t.calls| ensures Holds(t, t.calls[j]) {
      assert Holds(s, s.calls[j]);
    }
    forall j, q | 0 <= j < |t.stats| ensures UserLedger(t, j, q) {
      assert UserLedger(s, j, q);
      SumUpdate(s.calls, k, t.calls[k], OfUser(j, q));
    }
    forall q ensures TotalLedger(t, q) {
      assert TotalLedger(s, q);
      SumUpdate(s.calls, k, t.calls[k], OfTotal(q));
      if q == QuantityOf(c.op) {
        ShowsAdd(Total(s.totals, q), Amount(c.op), Sum(s.calls, OfTotal(q)));
      }
    }
    forall j | 0 <= j < |t.stats| ensures GaugeLedger(t, j) {
      assert GaugeLedger(s, j);
      SumUpdate(s.calls, k, t.calls[k], ActiveOf(j));
    }
  }

  lemma {:induction false} RaiseGaugeKeeps(s: State, k: nat, i: nat)
    requires Registered(s) && Ledger(s) && k < |s.calls| && i < |s.stats|
    requires s.calls[k].pc == Holding(i) && s.calls[k].op.ConnectionStarted?
    ensures Registered(RaiseGauge(s, k, i)) && Ledger(RaiseGauge(s, k, i))
  {
    var t := RaiseGauge(s, k, i);
    assert Holds(s, s.calls[k]);
    TouchRegistered(s, k, t.stats[i], Activated(i));
    forall j, q | 0 <= j < |t.stats| ensures UserLedger(t, j, q) {
      assert UserLedger(s, j, q);
      SumUpdate(s.calls, k, t.calls[k], OfUser(j, q));
    }
    forall q ensures TotalLedger(t, q) {
      assert TotalLedger(s, q);
      SumUpdate(s.calls, k, t.calls[k], OfTotal(q));
    }
    forall j | 0 <= j < |t.stats| ensures GaugeLedger(t, j) {
      assert GaugeLedger(s, j);
      SumUpdate(s.calls, k, t.calls[k], ActiveOf(j));
      if j == i {
        ShowsStep(s.stats[i].active, Sum(s.calls, ActiveOf(i)));
      }
    }
  }

  lemma {:induction false} DropGuardKeeps(s: State, k: nat, i: nat)
    requires Registered(s) && Ledger(s) && k < |s.calls| && i < |s.stats| && s.calls[k].pc == Guarding(i)
    ensures Registered(DropGuard(s, k, i)) && Ledger(DropGuard(s, k, i))
  {
    var t := DropGuard(s, k, i);
    assert Holds(s, s.calls[k]);
    TouchRegistered(s, k, t.stats[i], Dropped(i));
    forall j, q | 0 <= j < |t.stats| ensures UserLedger(t, j, q) {
      assert UserLedger(s, j, q);
      SumUpdate(s.calls, k, t.calls[k], OfUser(j, q));
    }
    forall q ensures TotalLedger(t, q) {
      assert TotalLedger(s, q);
      SumUpdate(s.calls, k, t.calls[k], OfTotal(q));
    }
    forall j | 0 <= j < |t.stats| ensures GaugeLedger(t, j) {
      assert GaugeLedger(s, j);
      SumUpdate(s.calls, k, t.calls[k], ActiveOf(j));
      if j == i {
        ShowsStep(s.stats[i].active, Sum(s.calls, ActiveOf(i)));
      }
    }
  }

  function Next(s: State, step: Step): State
    requires Enabled(s, step)
  {
    match step
    case Begin(op, email) => s.(calls := s.calls + [Started(op, email)])
    case Advance(k) => Move(s, k)
  }

  /** The entries of `users` only grow: no email loses or changes its stats. */
  ghost predicate Extends(s: State, t: State) {
    && (forall e :: e in s.users ==> e in t.users && t.users[e] == s.users[e])
    && |s.stats| <= |t.stats|
  }

  lemma {:induction false} NextKeeps(s: State, step: Step)
    requires Registered(s) && Ledger(s) && Enabled(s, step)
    ensures Registered(Next(s, step)) && Ledger(Next(s, step)) && Extends(s, Next(s, step))
  {
    match step {
      case Begin(op, email) => BeginKeeps(s, op, email);
      case Advance(k) =>
        var c := s.calls[k];
        assert Holds(s, c);
        match c.pc {
          case Looking => QuietMoveKeeps(s, k, if c.email in s.users then Holding(s.users[c.email]) else Missing);
          case Missing =>
            InsertKeeps(s, c.email);
            var t := InsertIfAbsent(s, c.email);
            QuietMoveKeeps(t, k, Holding(t.users[c.email]));
          case Holding(i) => if c.op.ConnectionStarted? { RaiseGaugeKeeps(s, k, i); } else { UserAddKeeps(s, k, i); }
          case Activated(i) => UserAddKeeps(s, k, i);
          case UserAdded(i) => TotalAddKeeps(s, k, i);
          case Guarding(i) => DropGuardKeeps(s, k, i);
        }
    }
  }

  // ---- runs ----

  /** `trace` is a run: it starts in the empty registry and each state follows by an enabled step. */
  ghost predicate IsRun(trace: seq<State>, steps: seq<Step>) {
    && |trace| == |steps| + 1 && trace[0] == Init()
    && forall j :: 0 <= j < |steps| ==>
         Enabled(trace[j], steps[j]) && trace[j + 1] == Next(trace[j], steps[j])
  }

  lemma {:induction false} RunKeeps(trace: seq<State>, steps: seq<Step>, j: nat)
    requires IsRun(trace, steps) && j < |trace|
    ensures Registered(trace[j]) && Ledger(trace[j])
    decreases j
  {
    if j == 0 {
      assert 0 + 0 * U64 == 0;
      assert forall q :: TotalLedger(trace[0], q);
    } else {
      RunKeeps(trace, steps, j - 1);
      NextKeeps(trace[j - 1], steps[j - 1]);
    }
  }

  // ---- adding up over users ----

  function SumStats(stats: seq<UserStats>, q: Quantity): int {
    if stats == [] then 0 else SumStats(stats[..|stats| - 1], q) + Get(stats[|stats| - 1], q)
  }

  /** What the calls have added to the counters of the first `m` users. */
  function Across(calls: seq<Call>, m: nat, q: Quantity): nat {
    if m == 0 then 0 else Across(calls, m - 1, q) + Sum(calls, OfUser(m - 1, q))
  }

  lemma {:induction false} AcrossNone(m: nat, q: Quantity)
    ensures Across([], m, q) == 0
  {
    if m > 0 {
      AcrossNone(m - 1, q);
    }
  }

  /** One call adds to the counter of one user only. */
  lemma {:induction false} AcrossOne(calls: seq<Call>, m: nat, q: Quantity)
    requires calls != []
    ensures var c := calls[0];
            Across(calls, m, q) == Across(calls[1..], m, q)
            + (if Posted(c.pc) && Index(c.pc) < m && QuantityOf(c.op) == q then Amount(c.op) else 0)
  {
    if m > 0 {
      AcrossOne(calls, m - 1, q);
    }
  }

  lemma {:induction false} AcrossSplits(calls: seq<Call>, m: nat, q: Quantity)
    requires forall k :: 0 <= k < |calls| ==> Index(calls[k].pc) < m
    ensures Across(calls, m, q) == Sum(calls, OfTotal(q)) + Sum(calls, Pending(q))
  {
    if calls == [] {
      AcrossNone(m, q);
    } else {
      AcrossOne(calls, m, q);
      AcrossSplits(calls[1..], m, q);
      assert Index(calls[0].pc) < m;
    }
  }

  lemma {:induction false} ShowsBoth(x: int, a: int, y: int, b: int)
    requires Shows(x, a) && Shows(y, b)
    ensures Shows(x + y, a + b)
  {
    var s :| x + s * U64 == a;
    var t :| y + t * U64 == b;
    assert (x + y) + (s + t) * U64 == a + b;
  }

  lemma {:induction false} StatsShow(s: State, m: nat, q: Quantity)
    requires Ledger(s) && m <= |s.stats|
    ensures Shows(SumStats(s.stats[..m], q), Across(s.calls, m, q))
  {
    if m == 0 {
      assert 0 + 0 * U64 == 0;
    } else {
      StatsShow(s, m - 1, q);
      assert s.stats[..m][..m - 1] == s.stats[..m - 1];
      assert UserLedger(s, m - 1, q);
      ShowsBoth(SumStats(s.stats[..m - 1], q), Across(s.calls, m - 1, q),
                Get(s.stats[m - 1], q), Sum(s.calls, OfUser(m - 1, q)));
    }
  }

  // ---- main results ----

  lemma {:induction false} StepExtends(trace: seq<State>, steps: seq<Step>, j: nat)
    requires IsRun(trace, steps) && j < |steps|
    ensures Extends(trace[j], trace[j + 1])
  {
    RunKeeps(trace, steps, j);
    NextKeeps(trace[j], steps[j]);
  }

  lemma {:induction false} ExtendsFurther(r: State, s: State, t: State)
    requires Extends(r, s) && Extends(s, t)
    ensures Extends(r, t)
  {
  }

  lemma {:induction false} RunExtends(trace: seq<State>, steps: seq<Step>, i: nat, j: nat)
    requires IsRun(trace, steps) && i <= j < |trace|
    ensures Extends(trace[i], trace[j])
    decreases j - i
  {
    if i < j {
      RunExtends(trace, steps, i, j - 1);
      StepExtends(trace, steps, j - 1);
      ExtendsFurther(trace[i], trace[j - 1], trace[j]);
    }
  }

  lemma {:induction false} HoldsItsOwn(s: State, k: nat)
    requires Registered(s) && k < |s.calls| && 0 <= Index(s.calls[k].pc)
    ensures var c := s.calls[k];
            c.email in s.users && s.users[c.email] == Index(c.pc)
  {
    assert Holds(s, s.calls[k]);
  }

  /**
    In every reachable state an email has one `UserStats`, the one every call for it works on, and it
    keeps it for the rest of the run.
   */
  lemma {:induction false} OneStatsPerEmail(trace: seq<State>, steps: seq<Step>, i: nat, j: nat)
    requires IsRun(trace, steps) && i <= j < |trace|
    ensures Extends(trace[i], trace[j])
    ensures forall a, b :: 0 <= a < b < |trace[j].stats| ==> trace[j].stats[a].email != trace[j].stats[b].email
    ensures forall k :: 0 <= k < |trace[j].calls| && 0 <= Index(trace[j].calls[k].pc) ==>
              var c := trace[j].calls[k];
              c.email in trace[j].users && trace[j].users[c.email] == Index(c.pc)
  {
    RunExtends(trace, steps, i, j);
    RunKeeps(trace, steps, j);
    var s := trace[j];
    forall k | 0 <= k < |s.calls| && 0 <= Index(s.calls[k].pc)
      ensures var c := s.calls[k]; c.email in s.users && s.users[c.email] == Index(c.pc)
    {
      HoldsItsOwn(s, k);
    }
  }

  /**
    In every reachable state each total equals, modulo 2^64, the sum of the users' counters minus
    what calls in flight have still to add to it.
   */
  lemma {:induction false} TotalsBalance(trace: seq<State>, steps: seq<Step>, j: nat, q: Quantity)
    requires IsRun(trace, steps) && j < |trace|
    ensures var s := trace[j];
            Shows(Total(s.totals, q) as int, SumStats(s.stats, q) - Sum(s.calls, Pending(q)))
  {
    RunKeeps(trace, steps, j);
    var s := trace[j];
    forall k | 0 <= k < |s.calls| ensures Index(s.calls[k].pc) < |s.stats| {
      assert Holds(s, s.calls[k]);
    }
    assert s.stats[..|s.stats|] == s.stats;
    StatsShow(s, |s.stats|, q);
    AcrossSplits(s.calls, |s.stats|, q);
    assert TotalLedger(s, q);
    var t :| Total(s.totals, q) + t * U64 == Sum(s.calls, OfTotal(q));
    var u :| SumStats(s.stats, q) + u * U64 == Across(s.calls, |s.stats|, q);
    assert Total(s.totals, q) + (t - u) * U64 == SumStats(s.stats, q) - Sum(s.calls, Pending(q));
  }

  /**
    In every reachable state each gauge is the number of that user's live guards plus calls between
    raising it and returning, if and only if that number fits a signed 64-bit integer.
   */
  lemma {:induction false} GaugeIsExact(trace: seq<State>, steps: seq<Step>, j: nat, i: nat)
    requires IsRun(trace, steps) && j < |trace| && i < |trace[j].stats|
    ensures var active := Sum(trace[j].calls, ActiveOf(i));
            trace[j].stats[i].active == active <==> active <= I64_MAX
  {
    RunKeeps(trace, steps, j);
    var s := trace[j];
    assert GaugeLedger(s, i);
    GaugeShows(s.stats[i].active, Sum(s.calls, ActiveOf(i)));
  }

  lemma {:induction false} GaugeShows(x: Gauge, n: nat)
    requires Shows(x, n)
    ensures x == n <==> n <= I64_MAX
  {
    var turns :| x + turns * U64 == n;
    if n <= I64_MAX {
      assert turns == 0;
    }
  }

  /** No call is in progress; guards may still be alive. */
  ghost predicate Quiescent(s: State) {
    forall k :: 0 <= k < |s.calls| ==> Idle(s.calls[k].pc) || s.calls[k].pc.Guarding?
  }

  lemma {:induction false} NothingPending(calls: seq<Call>, q: Quantity)
    requires forall k :: 0 <= k < |calls| ==> !calls[k].pc.UserAdded?
    ensures Sum(calls, Pending(q)) == 0
  {
    if calls != [] {
      NothingPending(calls[1..], q);
      assert !calls[0].pc.UserAdded?;
    }
  }

  /** The call has done all its adds, to the stats of its email; one that returned at once had nothing to add. */
  ghost predicate Settled(c: Call, email: string, i: nat) {
    if c.pc.Ignored? then c.email == "" || Amount(c.op) == 0
    else Posted(c.pc) && (Index(c.pc) == i <==> c.email == email)
  }

  lemma {:induction false} SettledSums(calls: seq<Call>, email: string, i: nat, q: Quantity)
    requires email != "" && forall k :: 0 <= k < |calls| ==> Settled(calls[k], email, i)
    ensures Sum(calls, OfUser(i, q)) == Sum(calls, Asked(email, q))
  {
    if calls != [] {
      SettledSums(calls[1..], email, i, q);
      assert Settled(calls[0], email, i);
    }
  }

  lemma {:induction false} AllSettled(s: State, email: string)
    requires Registered(s) && Quiescent(s) && email in s.users
    ensures forall k :: 0 <= k < |s.calls| ==> Settled(s.calls[k], email, s.users[email])
  {
    forall k | 0 <= k < |s.calls| ensures Settled(s.calls[k], email, s.users[email]) {
      assert Holds(s, s.calls[k]);
      var i := Index(s.calls[k].pc);
      if 0 <= i {
        assert s.users[s.stats[i].email] == i;
      }
    }
  }

  /**
    When no call is in progress every total equals the sum of the users' counters, and every user's
    counter equals the sum of all that was asked for under that email, both modulo 2^64.
   */
  lemma {:induction false} ExactAtRest(trace: seq<State>, steps: seq<Step>, j: nat, email: string, q: Quantity)
    requires IsRun(trace, steps) && j < |trace| && Quiescent(trace[j])
    ensures Shows(Total(trace[j].totals, q) as int, SumStats(trace[j].stats, q))
    ensures var s := trace[j];
            email in s.users ==>
              s.users[email] < |s.stats| && Shows(Get(s.stats[s.users[email]], q), Sum(s.calls, Asked(email, q)))
  {
    var s := trace[j];
    TotalsBalance(trace, steps, j, q);
    NothingPending(s.calls, q);
    RunKeeps(trace, steps, j);
    if email in s.users {
      AllSettled(s, email);
      SettledSums(s.calls, email, s.users[email], q);
      assert UserLedger(s, s.users[email], q);
    }
  }
}
