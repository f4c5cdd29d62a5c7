/** The event loop's timer queue (eloop.c) on values: what every interleaving of registering,
    cancelling and firing keeps. Handlers run after their timer has left the queue, so what they
    register or cancel is simply what comes next.
 */
module TimerQueue {

  // ---------- Time ----------

  datatype Time = Time(sec: int, usec: int)

  const SECOND := 1000000

  predicate Normal(t: Time) {
    0 <= t.usec < SECOND
  }

  function Micros(t: Time): int {
    t.sec * SECOND + t.usec
  }

  /** os_time_before. */
  predicate Before(a: Time, b: Time) {
    a.sec < b.sec || (a.sec == b.sec && a.usec < b.usec)
  }

  /** On normal times, field by field is the order of the numbers. */
  lemma BeforeIsLess(a: Time, b: Time)
    requires Normal(a) && Normal(b)
    ensures Before(a, b) <==> Micros(a) < Micros(b)
  {
  }

  /** The deadline of a timer registered at `now`: carry until the microseconds are normal. */
  method Deadline(now: Time, secs: nat, usecs: nat) returns (t: Time)
    requires Normal(now)
    ensures Normal(t) && Micros(t) == Micros(now) + secs * SECOND + usecs
  {
    var sec, usec := now.sec + secs, now.usec + usecs;
    while usec >= SECOND
      invariant 0 <= usec && sec * SECOND + usec == Micros(now) + secs * SECOND + usecs
    {
      sec := sec + 1;
      usec := usec - SECOND;
    }
    t := Time(sec, usec);
  }

  /** How long the loop sleeps: exactly until the deadline, or not at all once it has passed. */
  method Wait(now: Time, deadline: Time) returns (t: Time)
    requires Normal(now) && Normal(deadline)
    ensures Normal(t)
    ensures Micros(t) == if Micros(now) < Micros(deadline) then Micros(deadline) - Micros(now) else 0
  {
    if Before(now, deadline) {
      var sec, usec := deadline.sec - now.sec, deadline.usec - now.usec;
      if usec < 0 {
        sec, usec := sec - 1, usec + SECOND;
      }
      t := Time(sec, usec);
    } else {
      t := Time(0, 0);
    }
  }

  // ---------- The queue ----------

  /** What a timer was registered for. `Any` is ELOOP_ALL_CTX, which a cancellation may name. */
  datatype Context = Any | Context(id: int)

  /** A pending timer; `id` counts registrations. */
  datatype Timer = Timer(time: Time, handler: int, data: Context, user: Context, id: nat)

  /** Whether a cancellation is meant for a timer. */
  predicate Matches(t: Timer, handler: int, data: Context, user: Context) {
    t.handler == handler && (t.data == data || data.Any?) && (t.user == user || user.Any?)
  }

  /** The first place whose timer is later; equal deadlines are passed over. */
  function Place(q: seq<Timer>, t: Time, i: nat): (p: nat)
    requires i <= |q|
    ensures i <= p <= |q| && (p < |q| ==> Before(t, q[p].time))
    ensures forall j :: i <= j < p ==> !Before(t, q[j].time)
    decreases |q| - i
  {
    if i == |q| || Before(t, q[i].time) then i else Place(q, t, i + 1)
  }

  function Insert(q: seq<Timer>, t: Timer): seq<Timer> {
    var p := Place(q, t.time, 0);
    q[..p] + [t] + q[p..]
  }

  /** Timers a cancellation leaves, in order. */
  function Kept(q: seq<Timer>, handler: int, data: Context, user: Context): seq<Timer> {
    if q == [] then []
    else (if Matches(q[0], handler, data, user) then [] else [q[0]]) + Kept(q[1..], handler, data, user)
  }

  /** Timers a cancellation removes, in order. */
  function Removed(q: seq<Timer>, handler: int, data: Context, user: Context): seq<Timer> {
    if q == [] then []
    else (if Matches(q[0], handler, data, user) then [q[0]] else []) + Removed(q[1..], handler, data, user)
  }

  predicate Due(q: seq<Timer>, now: Time) {
    q != [] && !Before(now, q[0].time)
  }

  // ---------- Runs ----------

  /** The queue and where every timer that left it went. */
  datatype State = State(queue: seq<Timer>, registered: nat, fired: seq<Timer>, cancelled: seq<Timer>)

  datatype Op =
    | Register(time: Time, handler: int, data: Context, user: Context)
    | Cancel(handler: int, data: Context, user: Context)
    | Fire(now: Time)

  predicate Sensible(op: Op) {
    match op
    case Register(t, _, _, _) => Normal(t)
    case Cancel(_, _, _) => true
    case Fire(now) => Normal(now)
  }

  function Apply(s: State, op: Op): State {
    match op
    case Register(t, h, d, u) => s.(queue := Insert(s.queue, Timer(t, h, d, u, s.registered)), registered := s.registered + 1)
    case Cancel(h, d, u) => s.(queue := Kept(s.queue, h, d, u), cancelled := s.cancelled + Removed(s.queue, h, d, u))
    case Fire(now) => if Due(s.queue, now) then s.(queue := s.queue[1..], fired := s.fired + [s.queue[0]]) else s
  }

  const START := State([], 0, [], [])

  function Run(ops: seq<Op>): State
    decreases |ops|
  {
    if ops == [] then START else Apply(Run(ops[..|ops| - 1]), ops[|ops| - 1])
  }

  // ---------- Order ----------

  /** Earlier deadline first, equal deadlines in registration order. */
  predicate Precedes(a: Timer, b: Timer) {
    Micros(a.time) < Micros(b.time) || (Micros(a.time) == Micros(b.time) && a.id < b.id)
  }

  predicate Sorted(q: seq<Timer>) {
    forall i, j :: 0 <= i < j < |q| ==> Precedes(q[i], q[j])
  }

  ghost predicate Ok(q: seq<Timer>, registered: nat) {
    && Sorted(q)
    && forall i :: 0 <= i < |q| ==> Normal(q[i].time) && q[i].id < registered
  }

  lemma InsertKeepsOrder(q: seq<Timer>, t: Timer)
    requires Ok(q, t.id) && Normal(t.time)
    ensures Ok(Insert(q, t), t.id + 1)
  {
    var p, r := Place(q, t.time, 0), Insert(q, t);
    forall j | 0 <= j < p ensures Precedes(q[j], t) {
      BeforeIsLess(t.time, q[j].time);
    }
    forall j | p <= j < |q| ensures Precedes(t, q[j]) {
      BeforeIsLess(t.time, q[p].time);
      assert j == p || Precedes(q[p], q[j]);
    }
    forall i | 0 <= i < |r| ensures r[i] == if i < p then q[i] else if i == p then t else q[i - 1] {
    }
  }

  lemma {:induction false} KeptFrom(q: seq<Timer>, h: int, d: Context, u: Context)
    ensures forall t :: t in Kept(q, h, d, u) <==> t in q && !Matches(t, h, d, u)
    ensures forall t :: t in Removed(q, h, d, u) <==> t in q && Matches(t, h, d, u)
  {
    if q != [] {
      KeptFrom(q[1..], h, d, u);
      assert q == [q[0]] + q[1..];
    }
  }

  lemma {:induction false} KeptKeepsOrder(q: seq<Timer>, h: int, d: Context, u: Context, n: nat)
    requires Ok(q, n)
    ensures Ok(Kept(q, h, d, u), n)
  {
    if q != [] {
      KeptKeepsOrder(q[1..], h, d, u, n);
      KeptFrom(q[1..], h, d, u);
      var rest := Kept(q[1..], h, d, u);
      forall i | 0 <= i < |rest| ensures Precedes(q[0], rest[i]) {
        assert rest[i] in q[1..];
        var j :| 0 <= j < |q[1..]| && q[1..][j] == rest[i];
        assert q[j + 1] == rest[i];
      }
    }
  }

  /** In every run the queue is sorted, equal deadlines in registration order. */
  lemma {:induction false} RunSorted(ops: seq<Op>)
    requires forall i :: 0 <= i < |ops| ==> Sensible(ops[i])
    ensures Ok(Run(ops).queue, Run(ops).registered)
    decreases |ops|
  {
    if ops != [] {
      RunSorted(ops[..|ops| - 1]);
      var s := Run(ops[..|ops| - 1]);
      match ops[|ops| - 1] {
        case Register(t, h, d, u) => InsertKeepsOrder(s.queue, Timer(t, h, d, u, s.registered));
        case Cancel(h, d, u) => KeptKeepsOrder(s.queue, h, d, u, s.registered);
        case Fire(_) =>
      }
    }
  }

  /** Whatever happened before, a timer fires exactly when some pending timer is due, and the one that
      fires is due and comes before every other. */
  lemma FiresTheRightOne(ops: seq<Op>, now: Time)
    requires Normal(now) && forall i :: 0 <= i < |ops| ==> Sensible(ops[i])
    ensures var q, after := Run(ops).queue, Apply(Run(ops), Fire(now));
            && (|after.queue| < |q| <==> exists i :: 0 <= i < |q| && Micros(q[i].time) <= Micros(now))
            && (|after.queue| < |q| ==>
                  && after.queue == q[1..] && after.fired == Run(ops).fired + [q[0]]
                  && Micros(q[0].time) <= Micros(now)
                  && forall i :: 0 < i < |q| ==> Precedes(q[0], q[i]))
  {
    RunSorted(ops);
    var q := Run(ops).queue;
    if q != [] {
      BeforeIsLess(now, q[0].time);
      forall i | 0 <= i < |q| ensures Micros(q[0].time) <= Micros(q[i].time) {
        assert i == 0 || Precedes(q[0], q[i]);
      }
    }
  }

  /** A cancellation removes exactly the timers meant, those of the handler whose data and user contexts
      are the ones named where these are named, keeps the others in order, and leaves nothing for the same
      cancellation to do. */
  lemma {:induction false} CancelRemovesExactly(q: seq<Timer>, h: int, d: Context, u: Context)
    ensures |Kept(q, h, d, u)| + |Removed(q, h, d, u)| == |q|
    ensures forall t :: t in Kept(q, h, d, u) <==>
              t in q && (t.handler != h || (d != Any && t.data != d) || (u != Any && t.user != u))
    ensures forall t :: t in Removed(q, h, d, u) <==>
              t in q && t.handler == h && (d == Any || t.data == d) && (u == Any || t.user == u)
    ensures Kept(Kept(q, h, d, u), h, d, u) == Kept(q, h, d, u)
  {
    KeptFrom(q, h, d, u);
    if q != [] {
      CancelRemovesExactly(q[1..], h, d, u);
      var k := Kept(q, h, d, u);
      if !Matches(q[0], h, d, u) {
        assert k[1..] == Kept(q[1..], h, d, u);
      } else {
        assert k == Kept(q[1..], h, d, u);
      }
    }
  }

  /** A registration adds one timer, with what it was registered for, and leaves the others. */
  lemma RegisterAddsOne(s: State, t: Time, h: int, d: Context, u: Context)
    ensures var r := Apply(s, Register(t, h, d, u));
            && multiset(r.queue) == multiset(s.queue) + multiset{Timer(t, h, d, u, s.registered)}
            && r.registered == s.registered + 1 && r.fired == s.fired && r.cancelled == s.cancelled
  {
    var p := Place(s.queue, t, 0);
    assert s.queue == s.queue[..p] + s.queue[p..];
  }

  // ---------- Nothing is lost ----------

  /** How many timers of a sequence carry a registration number. */
  function Carrying(q: seq<Timer>, id: nat): nat {
    if q == [] then 0 else Carrying(q[..|q| - 1], id) + if q[|q| - 1].id == id then 1 else 0
  }

  lemma {:induction false} CarryingAppend(a: seq<Timer>, b: seq<Timer>, id: nat)
    ensures Carrying(a + b, id) == Carrying(a, id) + Carrying(b, id)
    decreases |b|
  {
    if b == [] {
      assert a + b == a;
    } else {
      assert (a + b)[..|a + b| - 1] == a + b[..|b| - 1];
      CarryingAppend(a, b[..|b| - 1], id);
    }
  }

  lemma {:induction false} CancelCarries(q: seq<Timer>, h: int, d: Context, u: Context, id: nat)
    ensures Carrying(Kept(q, h, d, u), id) + Carrying(Removed(q, h, d, u), id) == Carrying(q, id)
  {
    if q != [] {
      CancelCarries(q[1..], h, d, u, id);
      var first := [q[0]];
      assert q == first + q[1..];
      CarryingAppend(first, q[1..], id);
      if Matches(q[0], h, d, u) {
        CarryingAppend(first, Removed(q[1..], h, d, u), id);
        assert [] + Kept(q[1..], h, d, u) == Kept(q[1..], h, d, u);
      } else {
        CarryingAppend(first, Kept(q[1..], h, d, u), id);
        assert [] + Removed(q[1..], h, d, u) == Removed(q[1..], h, d, u);
      }
    }
  }

  lemma InsertCarries(q: seq<Timer>, t: Timer, id: nat)
    ensures Carrying(Insert(q, t), id) == Carrying(q, id) + if t.id == id then 1 else 0
  {
    var p := Place(q, t.time, 0);
    CarryingAppend(q[..p] + [t], q[p..], id);
    CarryingAppend(q[..p], [t], id);
    CarryingAppend(q[..p], q[p..], id);
    assert q == q[..p] + q[p..];
    assert [t][..0] == [];
  }

  /** In every run each timer ever registered is pending, fired or cancelled, and only one of these. */
  lemma {:induction false} NoTimerIsLost(ops: seq<Op>, id: nat)
    ensures var s := Run(ops);
            Carrying(s.queue, id) + Carrying(s.fired, id) + Carrying(s.cancelled, id) == if id < s.registered then 1 else 0
    decreases |ops|
  {
    if ops != [] {
      NoTimerIsLost(ops[..|ops| - 1], id);
      var s := Run(ops[..|ops| - 1]);
      match ops[|ops| - 1] {
        case Register(t, h, d, u) => InsertCarries(s.queue, Timer(t, h, d, u, s.registered), id);
        case Cancel(h, d, u) =>
          CancelCarries(s.queue, h, d, u, id);
          CarryingAppend(s.cancelled, Removed(s.queue, h, d, u), id);
        case Fire(now) =>
          if Due(s.queue, now) {
            var first := [s.queue[0]];
            assert s.queue == first + s.queue[1..];
            CarryingAppend(first, s.queue[1..], id);
            CarryingAppend(s.fired, first, id);
          }
      }
    }
  }
}
