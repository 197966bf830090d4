/**
 Simulated DONT_HAVEs: a want that was sent and not answered within the timeout
 is reported as expired. A log of what happens to the wants gives the meaning;
 the manager's queue, map and timer are proved to follow it.
 */
module DontHaveTimeouts {
  import opened Types

  // ---------- the log ----------

  datatype Event =
    | Added(c: Cid, sent: int)
    | Cancelled(c: Cid)
    | Expired(c: Cid, now: int, timeout: int)

  /** The wants a log leaves active, with the time each was sent. */
  function After(v: map<Cid, int>, e: Event): map<Cid, int> {
    match e
    case Added(c, sent) => v[c := sent]
    case Cancelled(c) => v - {c}
    case Expired(c, _, _) => v - {c}
  }

  function Replay(log: seq<Event>): map<Cid, int> {
    if log == [] then map[] else After(Replay(log[..|log| - 1]), log[|log| - 1])
  }

  /** Only an active want expires, and not before its timeout. */
  ghost predicate Fits(v: map<Cid, int>, e: Event) {
    match e
    case Added(c, _) => c !in v
    case Cancelled(_) => true
    case Expired(c, now, timeout) => c in v && now - v[c] >= timeout
  }

  ghost predicate Disciplined(log: seq<Event>) {
    forall i :: 0 <= i < |log| ==> Fits(Replay(log[..i]), log[i])
  }

  lemma OneMoreEvent(log: seq<Event>, e: Event)
    ensures Replay(log + [e]) == After(Replay(log), e)
    ensures Disciplined(log) && Fits(Replay(log), e) ==> Disciplined(log + [e])
  {
    hide After, Fits;
    var longer := log + [e];
    assert longer[..|log|] == log;
    forall i | 0 <= i < |longer| && Disciplined(log) && Fits(Replay(log), e)
      ensures Fits(Replay(longer[..i]), longer[i])
    {
      if i < |log| {
        assert longer[..i] == log[..i];
      }
    }
  }

  /** Where an active want was added, with nothing about it since. */
  lemma {:induction false} WhereAdded(log: seq<Event>, c: Cid) returns (i: nat)
    requires c in Replay(log)
    ensures i < |log| && log[i] == Added(c, Replay(log)[c])
    ensures forall k :: i < k < |log| ==> log[k].c != c
  {
    var last := |log| - 1;
    if log[last].c == c {
      i := last;
    } else {
      i := WhereAdded(log[..last], c);
    }
  }

  /**
   An expiry is of a want added at least the timeout before, and neither cancelled
   nor expired since: a want is reported at most once, never before its timeout
   and never after it was cancelled.
   */
  lemma ExpiryIsJustified(log: seq<Event>, j: nat)
    requires Disciplined(log) && j < |log| && log[j].Expired?
    ensures exists i :: 0 <= i < j && log[i].Added? && log[i].c == log[j].c
                        && log[j].now - log[i].sent >= log[j].timeout
                        && forall k :: i < k < j ==> log[k].c != log[j].c
  {
    hide Replay;
    assert Fits(Replay(log[..j]), log[j]);
    var i := WhereAdded(log[..j], log[j].c);
    assert log[..j][i] == log[i];
    assert forall k :: i < k < j ==> log[..j][k] == log[k];
  }

  // ---------- latency and timeouts ----------

  function Min(a: int, b: int): int {
    if a < b then a else b
  }

  /** The weight of the latest of `n` samples: an equal share at first, then `alpha`. */
  function Weight(n: nat, alpha: real): real
    requires n > 0
  {
    if 1.0 / n as real < alpha then alpha else 1.0 / n as real
  }

  /** A float converted to an integer loses its fraction. */
  function Truncate(x: real): int {
    if x >= 0.0 then x.Floor else -(-x).Floor
  }

  class LatencyEwma {
    const alpha: real
    var samples: nat
    var latency: int

    constructor (alpha: real)
      ensures this.alpha == alpha && samples == 0 && latency == 0
    {
      this.alpha := alpha;
      samples, latency := 0, 0;
    }

    /** The first sample counts alone; later the average moves towards the sample without passing it. */
    method Update(elapsed: int)
      requires 0.0 <= alpha <= 1.0
      modifies this
      ensures samples == old(samples) + 1
      ensures latency == Truncate(Mix(elapsed, old(latency), Weight(samples, alpha)))
      ensures var share := 1.0 / samples as real;
              IsAverage(latency, elapsed, old(latency), if share < alpha then alpha else share)
      ensures old(samples) == 0 ==> latency == elapsed
      ensures Min(elapsed, old(latency)) <= latency <= -Min(-elapsed, -old(latency))
    {
      hide Mix, Truncate, IsAverage;
      samples := samples + 1;
      var a := 1.0 / samples as real;
      UnitFraction(samples);
      if a < alpha {
        a := alpha;
      }
      MixBetween(elapsed, latency, a);
      TruncateBetween(Mix(elapsed, latency, a), Min(elapsed, latency), -Min(-elapsed, -latency));
      TruncateBetween(elapsed as real, elapsed, elapsed);
      MixIsAverage(elapsed, latency, a);
      latency := Truncate(Mix(elapsed, latency, a));
    }
  }

  lemma UnitFraction(n: nat)
    requires n >= 1
    ensures 0.0 <= 1.0 / n as real <= 1.0
    ensures n == 1 ==> 1.0 / n as real == 1.0
  {
  }

  /** The average of `x` and `y` with weight `a` on `x`. */
  function Mix(x: int, y: int, a: real): real {
    x as real * a + (1.0 - a) * y as real
  }

  lemma MixBetween(x: int, y: int, a: real)
    requires 0.0 <= a <= 1.0
    ensures Min(x, y) as real <= Mix(x, y, a) <= (-Min(-x, -y)) as real
    ensures a == 1.0 ==> Mix(x, y, a) == x as real
  {
    hide Mix;
    MixFrom(x, y, a);
    Scaled((x - y) as real, a);
  }

  lemma MixFrom(x: int, y: int, a: real)
    ensures Mix(x, y, a) == y as real + (x - y) as real * a
  {
  }

  /** `n` is `x` without its fraction. */
  ghost predicate IsTruncated(n: int, x: real) {
    if x >= 0.0 then n as real <= x < n as real + 1.0 else x <= n as real < x + 1.0
  }

  /** `n` is the average of `x` and `y`, with weight `a` on `x`, without its fraction. */
  ghost predicate IsAverage(n: int, x: int, y: int, a: real) {
    IsTruncated(n, x as real * a + (1.0 - a) * y as real)
  }

  lemma TruncateIs(x: real)
    ensures IsTruncated(Truncate(x), x)
  {
  }

  lemma MixIsAverage(x: int, y: int, a: real)
    ensures IsAverage(Truncate(Mix(x, y, a)), x, y, a)
  {
    hide Truncate, IsTruncated;
    TruncateIs(Mix(x, y, a));
  }

  lemma TruncateBetween(m: real, low: int, high: int)
    requires low as real <= m <= high as real
    ensures low <= Truncate(m) <= high
  {
  }

  lemma Scaled(d: real, a: real)
    requires 0.0 <= a <= 1.0
    ensures a == 1.0 ==> d * a == d
    ensures d >= 0.0 ==> 0.0 <= d * a <= d
    ensures d <= 0.0 ==> d <= d * a <= 0.0
  {
  }

  // ---------- pending wants ----------

  class PendingWant {
    const c: Cid
    const sent: int
    var active: bool

    constructor (c: Cid, sent: int)
      ensures this.c == c && this.sent == sent && active
    {
      this.c, this.sent, active := c, sent, true;
    }
  }

  /** The active wants are the active entries of the queue, which holds an entry once. */
  ghost predicate Linked(active: map<Cid, PendingWant>, queue: seq<PendingWant>)
    reads queue
  {
    && (forall i, j :: 0 <= i < j < |queue| ==> queue[i] != queue[j])
    && (forall c :: c in active ==> active[c].c == c && active[c] in queue && active[c].active)
    && (forall pw :: pw in queue && pw.active ==> pw.c in active && active[pw.c] == pw)
  }

  /** The queue is in order of sending. The time is read before the lock is taken, so concurrent calls may mix it up. */
  ghost predicate InOrder(queue: seq<PendingWant>) {
    forall i, j :: 0 <= i < j < |queue| ==> queue[i].sent <= queue[j].sent
  }

  /** The queue is in order, and all of it was sent by `start`. */
  ghost predicate SentBefore(queue: seq<PendingWant>, start: int) {
    InOrder(queue) && forall pw :: pw in queue ==> pw.sent <= start
  }

  ghost function SentTimes(active: map<Cid, PendingWant>): map<Cid, int> {
    map c | c in active :: active[c].sent
  }

  /** The log leaves exactly the active wants. */
  ghost predicate LogOk(log: seq<Event>, active: map<Cid, PendingWant>) {
    Disciplined(log) && Replay(log) == SentTimes(active)
  }

  lemma LogAt(log: seq<Event>, active: map<Cid, PendingWant>, e: Event, active': map<Cid, PendingWant>)
    requires LogOk(log, active) && Fits(SentTimes(active), e) && After(SentTimes(active), e) == SentTimes(active')
    ensures LogOk(log + [e], active')
  {
    hide After, Fits, SentTimes;
    OneMoreEvent(log, e);
  }

  /** The active wants that are not over the timeout. */
  ghost function Unexpired(active: map<Cid, PendingWant>, now: int, timeout: int): map<Cid, PendingWant> {
    map c | c in active && now - active[c].sent < timeout :: active[c]
  }

  /** What a check leaves in the queue: it stops at the first active want that is not over the timeout. */
  ghost function Undropped(queue: seq<PendingWant>, now: int, timeout: int): seq<PendingWant>
    reads queue
  {
    if queue == [] || (queue[0].active && now - queue[0].sent < timeout) then queue
    else Undropped(queue[1..], now, timeout)
  }

  /** The active wants that are still queued. */
  ghost function Queued(active: map<Cid, PendingWant>, queue: seq<PendingWant>): map<Cid, PendingWant> {
    map c | c in active && active[c] in queue :: active[c]
  }

  /** An active want that is over the timeout stands behind one that is not. */
  ghost predicate Hidden(queue: seq<PendingWant>, now: int, timeout: int)
    reads queue
  {
    exists i, j :: && 0 <= i < j < |queue| && queue[i].active && queue[j].active
                   && now - queue[i].sent < timeout && now - queue[j].sent >= timeout
  }

  lemma {:induction false} UndroppedIs(queue: seq<PendingWant>, now: int, timeout: int) returns (k: nat)
    ensures k <= |queue| && Undropped(queue, now, timeout) == queue[k..]
    ensures forall i :: 0 <= i < k ==> queue[i].active ==> now - queue[i].sent >= timeout
    ensures k < |queue| ==> queue[k].active && now - queue[k].sent < timeout
  {
    if queue == [] || (queue[0].active && now - queue[0].sent < timeout) {
      k := 0;
    } else {
      k := UndroppedIs(queue[1..], now, timeout);
      k := k + 1;
    }
  }

  /** A check expires every active want that is over the timeout, if and only if none is hidden behind another. */
  lemma ExpiresAllIff(active: map<Cid, PendingWant>, queue: seq<PendingWant>, now: int, timeout: int)
    requires Linked(active, queue)
    ensures Queued(active, Undropped(queue, now, timeout)) == Unexpired(active, now, timeout)
            <==> !Hidden(queue, now, timeout)
  {
    hide Undropped, Linked, Hidden;
    var rest := Undropped(queue, now, timeout);
    forall c | c in active
      ensures now - active[c].sent < timeout ==> active[c] in rest
      ensures now - active[c].sent >= timeout && active[c] in rest ==> Hidden(queue, now, timeout)
    {
      StaysIf(active, queue, c, now, timeout);
    }
    if Hidden(queue, now, timeout) {
      var c := HiddenStays(active, queue, now, timeout);
      assert c in Queued(active, rest);
    }
  }

  /** Only what is hidden stays too long. */
  lemma StaysIf(active: map<Cid, PendingWant>, queue: seq<PendingWant>, c: Cid, now: int, timeout: int)
    requires Linked(active, queue) && c in active
    ensures now - active[c].sent < timeout ==> active[c] in Undropped(queue, now, timeout)
    ensures now - active[c].sent >= timeout && active[c] in Undropped(queue, now, timeout) ==>
              Hidden(queue, now, timeout)
  {
    hide Undropped;
    var k := UndroppedIs(queue, now, timeout);
    var i :| 0 <= i < |queue| && queue[i] == active[c];
    if now - active[c].sent < timeout {
      assert queue[k..][i - k] == active[c];
    } else if active[c] in queue[k..] {
      var j :| 0 <= j < |queue[k..]| && queue[k..][j] == active[c];
      assert queue[k + j] == active[c] && queue[k].active;
    }
  }

  lemma HiddenStays(active: map<Cid, PendingWant>, queue: seq<PendingWant>, now: int, timeout: int) returns (c: Cid)
    requires Linked(active, queue) && Hidden(queue, now, timeout)
    ensures c in active && now - active[c].sent >= timeout && active[c] in Undropped(queue, now, timeout)
  {
    hide Undropped;
    var k := UndroppedIs(queue, now, timeout);
    var i, j :| && 0 <= i < j < |queue| && queue[i].active && queue[j].active
                && now - queue[i].sent < timeout && now - queue[j].sent >= timeout;
    assert queue[k..][j - k] == queue[j] && queue[j] in queue;
    c := queue[j].c;
  }

  lemma InOrderExpires(active: map<Cid, PendingWant>, queue: seq<PendingWant>, now: int, timeout: int)
    requires Linked(active, queue)
    ensures InOrder(queue) ==>
              forall c :: c in active ==>
                            (c in Queued(active, Undropped(queue, now, timeout)) <==> now - active[c].sent < timeout)
  {
    hide Undropped, Hidden, Linked;
    if InOrder(queue) {
      InOrderHidesNone(queue, now, timeout);
      ExpiresAllIff(active, queue, now, timeout);
      assert forall c :: c in active ==> (c in Unexpired(active, now, timeout) <==> now - active[c].sent < timeout);
    }
  }

  lemma NoneOverdue(active: map<Cid, PendingWant>, queue: seq<PendingWant>, now: int, timeout: int)
    requires Linked(active, queue) && forall c :: c in active ==> now - active[c].sent < timeout
    ensures Queued(active, Undropped(queue, now, timeout)) == active
  {
    hide Undropped;
    ExpiresAllIff(active, queue, now, timeout);
    assert Unexpired(active, now, timeout) == active;
  }

  lemma FrontIsActive(active: map<Cid, PendingWant>, queue: seq<PendingWant>, k: nat)
    requires Linked(active, queue) && k <= |queue|
    ensures k < |queue| && queue[k].active ==> queue[k].c in active && active[queue[k].c] == queue[k]
  {
  }

  lemma SentBeforeRest(queue: seq<PendingWant>, k: nat, start: int)
    requires SentBefore(queue, start) && k <= |queue|
    ensures SentBefore(queue[k..], start)
  {
  }

  lemma EmptyList(ks: seq<Cid>)
    ensures ks != [] ==> Elems(ks) != {}
  {
    if ks != [] {
      assert ks[0] in Elems(ks);
    }
  }

  /** In a queue in order of sending nothing is hidden. */
  lemma InOrderHidesNone(queue: seq<PendingWant>, now: int, timeout: int)
    requires InOrder(queue)
    ensures !Hidden(queue, now, timeout)
  {
  }

  /** The keys expire one after the other. */
  ghost function Expirations(ks: seq<Cid>, now: int, timeout: int): seq<Event> {
    seq(|ks|, i requires 0 <= i < |ks| => Expired(ks[i], now, timeout))
  }

  ghost function Additions(ks: seq<Cid>, start: int): seq<Event> {
    seq(|ks|, i requires 0 <= i < |ks| => Added(ks[i], start))
  }

  lemma NoExpirations(now: int, timeout: int)
    ensures Expirations([], now, timeout) == []
  {
  }

  lemma NoEvents(log: seq<Event>, now: int, timeout: int)
    ensures log + Expirations([], now, timeout) == log
  {
  }

  lemma OneMoreExpiration(log: seq<Event>, ks: seq<Cid>, c: Cid, now: int, timeout: int)
    ensures log + Expirations(ks + [c], now, timeout)
            == log + Expirations(ks, now, timeout) + [Expired(c, now, timeout)]
  {
  }

  lemma NoAdditions(log: seq<Event>, known: set<Cid>, start: int)
    ensures log + Additions(FirstNew([], known), start) == log
  {
  }

  lemma OneMoreAddition(log: seq<Event>, ks: seq<Cid>, i: nat, known: set<Cid>, start: int)
    requires i < |ks|
    ensures log + Additions(FirstNew(ks[..i + 1], known), start)
            == log + Additions(FirstNew(ks[..i], known), start)
               + if ks[i] in known + Elems(ks[..i]) then [] else [Added(ks[i], start)]
  {
    assert ks[..i + 1][..i] == ks[..i];
    FirstNewElems(ks[..i], known);
    assert ks[i] in FirstNew(ks[..i], known) <==> ks[i] in Elems(FirstNew(ks[..i], known));
  }

  lemma NoKeys()
    ensures Distinct<Cid>([]) && Elems<Cid>([]) == {}
  {
  }

  lemma AppendWant(active: map<Cid, PendingWant>, queue: seq<PendingWant>, pw: PendingWant)
    requires Linked(active, queue) && pw.c !in active && pw.active && pw !in queue
    ensures Linked(active[pw.c := pw], queue + [pw])
    ensures SentBefore(queue, pw.sent) ==> SentBefore(queue + [pw], pw.sent)
  {
  }

  lemma QueuedPart(active: map<Cid, PendingWant>, queue: seq<PendingWant>)
    ensures forall c :: c in Queued(active, queue) ==> c in active && Queued(active, queue)[c] == active[c]
  {
  }

  lemma AllQueued(active: map<Cid, PendingWant>, queue: seq<PendingWant>)
    requires Linked(active, queue)
    ensures Queued(active, queue) == active
  {
  }

  /** The head is gone from the queue, and from the active wants if it was active. */
  lemma QueuedWithoutHead(active0: map<Cid, PendingWant>, active: map<Cid, PendingWant>, queue: seq<PendingWant>)
    requires Linked(active, queue) && queue != [] && active == Queued(active0, queue)
    ensures Queued(active0, queue[1..]) == if queue[0].active then active - {queue[0].c} else active
    ensures queue[0].active ==> queue[0].c in active && queue[0].c in active0
  {
    forall c | c in active0
      ensures active0[c] in queue[1..] <==> active0[c] in queue && active0[c] != queue[0]
    {
      InTail(queue, active0[c]);
    }
  }

  lemma InTail(queue: seq<PendingWant>, pw: PendingWant)
    requires queue != [] && forall i, j :: 0 <= i < j < |queue| ==> queue[i] != queue[j]
    ensures pw in queue[1..] <==> pw in queue && pw != queue[0]
  {
    assert queue == [queue[0]] + queue[1..];
    if pw in queue[1..] {
      var i :| 0 <= i < |queue[1..]| && queue[1..][i] == pw;
      assert queue[i + 1] == pw;
    }
  }

  lemma NothingQueued(active: map<Cid, PendingWant>, queue: seq<PendingWant>)
    requires Linked(active, queue)
    ensures queue == [] ==> active == map[]
  {
  }

  /** In order of sending, a check that is no later than the front's deadline is no later than any. */
  lemma FrontIsOldest(active: map<Cid, PendingWant>, queue: seq<PendingWant>)
    requires Linked(active, queue) && InOrder(queue)
    ensures queue == [] ==> active == map[]
    ensures forall c :: c in active ==> active[c] in queue && queue[0].sent <= active[c].sent
  {
    forall c | c in active
      ensures active[c] in queue && queue[0].sent <= active[c].sent
    {
      var i :| 0 <= i < |queue| && queue[i] == active[c];
    }
  }

  lemma DropHead(active: map<Cid, PendingWant>, queue: seq<PendingWant>)
    requires Linked(active, queue) && queue != []
    ensures queue[0].active ==> queue[0].c in active && active[queue[0].c] == queue[0]
    ensures Linked(if queue[0].active then active - {queue[0].c} else active, queue[1..])
  {
  }

  lemma ExpireEvent(log: seq<Event>, active: map<Cid, PendingWant>, c: Cid, now: int, timeout: int)
    requires LogOk(log, active) && c in active && now - active[c].sent >= timeout
    ensures LogOk(log + [Expired(c, now, timeout)], active - {c})
  {
    hide Disciplined, Replay;
    assert After(SentTimes(active), Expired(c, now, timeout)) == SentTimes(active - {c});
    LogAt(log, active, Expired(c, now, timeout), active - {c});
  }

  lemma AddEvent(log: seq<Event>, active: map<Cid, PendingWant>, c: Cid, pw: PendingWant)
    requires LogOk(log, active) && c !in active
    ensures LogOk(log + [Added(c, pw.sent)], active[c := pw])
  {
    hide Disciplined, Replay;
    assert After(SentTimes(active), Added(c, pw.sent)) == SentTimes(active[c := pw]);
    LogAt(log, active, Added(c, pw.sent), active[c := pw]);
  }

  lemma CancelEvent(log: seq<Event>, active: map<Cid, PendingWant>, c: Cid)
    requires LogOk(log, active)
    ensures LogOk(log + [Cancelled(c)], active - {c})
    ensures c !in active ==> active - {c} == active
  {
    hide Disciplined, Replay;
    assert After(SentTimes(active), Cancelled(c)) == SentTimes(active - {c});
    LogAt(log, active, Cancelled(c), active - {c});
  }

  // ---------- the manager ----------

  datatype Timer = NoTimer | Timer(armed: bool, due: int, tick: bool)  // `tick`: it fired, and nobody looked yet

  class DontHaveTimeoutManager {
    const defaultTimeout: int
    const maxTimeout: int
    const pingLatencyMultiplier: int
    const messageLatencyMultiplier: int
    const maxExpectedWantProcessTime: int
    var started: bool
    var stopped: bool
    var activeWants: map<Cid, PendingWant>
    var wantQueue: seq<PendingWant>
    var timeout: int
    const messageLatency: LatencyEwma
    var timer: Timer
    ghost var log: seq<Event>

    ghost predicate Valid()
      reads this, wantQueue, messageLatency
    {
      && Linked(activeWants, wantQueue)
      && LogOk(log, activeWants)
      && (timeout <= maxTimeout || timeout == defaultTimeout)
      && 0.0 <= messageLatency.alpha <= 1.0
    }

    /** While wants are active, a check is at hand or scheduled no later than the deadline of the queue's front. */
    ghost predicate DeadlineOk()
      reads this
    {
      !stopped && activeWants != map[] ==>
        && timer.Timer? && wantQueue != []
        && (timer.tick || (timer.armed && timer.due <= wantQueue[0].sent + timeout))
    }

    constructor (defaultTimeout: int, maxTimeout: int, pingLatencyMultiplier: int, messageLatencyMultiplier: int,
                 maxExpectedWantProcessTime: int)
      ensures Valid() && DeadlineOk()
      ensures activeWants == map[] && wantQueue == [] && timeout == defaultTimeout && log == []
      ensures !started && !stopped && timer == NoTimer && fresh(messageLatency)
      ensures this.defaultTimeout == defaultTimeout && this.maxTimeout == maxTimeout
      ensures this.pingLatencyMultiplier == pingLatencyMultiplier
      ensures this.messageLatencyMultiplier == messageLatencyMultiplier
      ensures this.maxExpectedWantProcessTime == maxExpectedWantProcessTime
    {
      this.defaultTimeout, this.maxTimeout := defaultTimeout, maxTimeout;
      this.pingLatencyMultiplier, this.messageLatencyMultiplier := pingLatencyMultiplier, messageLatencyMultiplier;
      this.maxExpectedWantProcessTime := maxExpectedWantProcessTime;
      started, stopped := false, false;
      activeWants, wantQueue, timeout, timer := map[], [], defaultTimeout, NoTimer;
      messageLatency := new LatencyEwma(0.5);
      log := [];
    }

    function CalculateTimeoutFromPingLatency(latency: int): (t: int)
      ensures t <= maxTimeout
      ensures t == Min(maxExpectedWantProcessTime + pingLatencyMultiplier * latency, maxTimeout)
    {
      var t := maxExpectedWantProcessTime + pingLatencyMultiplier * latency;
      if t > maxTimeout then maxTimeout else t
    }

    function CalculateTimeoutFromMessageLatency(): (t: int)
      reads messageLatency
      ensures t <= maxTimeout
      ensures t == Min(messageLatency.latency * messageLatencyMultiplier, maxTimeout)
    {
      var t := messageLatency.latency * messageLatencyMultiplier;
      if t > maxTimeout then maxTimeout else t
    }

    /**
     The first call takes the timeout from a latency known already, or asks for a ping. It does
     not check the wants that are active by then: a check in time stays in time, if and only if
     it is no later than the deadline of the queue's front under the new timeout.
     */
    method Start(latency: int) returns (ping: bool)
      requires Valid()
      modifies this
      ensures Valid() && started && unchanged(`activeWants, `wantQueue, `log, `timer, `stopped)
      ensures ping <==> !old(started) && latency <= 0
      ensures timeout == if old(started) || ping then old(timeout) else CalculateTimeoutFromPingLatency(latency)
      ensures old(DeadlineOk()) ==>
                (DeadlineOk() <==> stopped || activeWants == map[] || old(started) || ping || timer.tick
                                   || timer.due <= wantQueue[0].sent + CalculateTimeoutFromPingLatency(latency))
    {
      if started {
        return false;
      }
      started := true;
      if latency > 0 {
        timeout := CalculateTimeoutFromPingLatency(latency);
        return false;
      }
      return true;
    }

    method Shutdown()
      requires Valid()
      modifies this
      ensures Valid() && DeadlineOk() && stopped && unchanged(`activeWants, `wantQueue, `log, `timeout)
      ensures timer.Timer? ==> !timer.armed
    {
      stopped := true;
      if timer.Timer? {
        timer := timer.(armed := false);
      }
    }

    /**
     Drops from the front of the queue what is cancelled or over the timeout, up to the first want
     that is neither.
     */
    method DropExpired(now: int) returns (expired: seq<Cid>)
      requires Valid()
      modifies this`activeWants, this`wantQueue, this`log
      ensures Valid() && wantQueue == old(Undropped(wantQueue, now, timeout))
      ensures wantQueue != [] ==> wantQueue[0].active && now - wantQueue[0].sent < timeout
      ensures activeWants == Queued(old(activeWants), wantQueue)
      ensures Distinct(expired) && Elems(expired) == old(activeWants).Keys - activeWants.Keys
      ensures log == old(log) + Expirations(expired, now, timeout)
    {
      hide LogOk, Distinct, Elems, Linked, Expirations, Queued;
      expired := [];
      NoKeys();
      NoEvents(log, now, timeout);
      AllQueued(activeWants, wantQueue);
      while |wantQueue| > 0
        invariant Undropped(wantQueue, now, timeout) == old(Undropped(wantQueue, now, timeout))
        invariant Valid() && activeWants == Queued(old(activeWants), wantQueue)
        invariant Distinct(expired) && Elems(expired) == old(activeWants).Keys - activeWants.Keys
        invariant log == old(log) + Expirations(expired, now, timeout)
        decreases |wantQueue|
      {
        var pw := wantQueue[0];
        DropHead(activeWants, wantQueue);
        QueuedWithoutHead(old(activeWants), activeWants, wantQueue);
        if pw.active {
          if now - pw.sent < timeout {
            break;
          }
          ExpireEvent(log, activeWants, pw.c, now, timeout);
          DistinctPush(expired, pw.c);
          ElemsPush(expired, pw.c);
          OneMoreExpiration(old(log), expired, pw.c, now, timeout);
          expired := expired + [pw.c];
          log := log + [Expired(pw.c, now, timeout)];
          activeWants := activeWants - {pw.c};
        }
        wantQueue := wantQueue[1..];
      }
    }

    /** Expires active wants up to the first that is not over the timeout, and schedules the next check for that one. */
    method CheckForTimeouts(now: int) returns (expired: seq<Cid>)
      requires Valid()
      modifies this`activeWants, this`wantQueue, this`timer, this`log
      ensures Valid() && DeadlineOk() && wantQueue == old(Undropped(wantQueue, now, timeout))
      ensures activeWants == Queued(old(activeWants), wantQueue)
      ensures Distinct(expired) && Elems(expired) == old(activeWants).Keys - activeWants.Keys
      ensures log == old(log) + Expirations(expired, now, timeout)
      ensures wantQueue != [] && !stopped ==> timer.Timer? && timer.armed && timer.due == wantQueue[0].sent + timeout
      ensures InOrder(old(wantQueue)) ==>
                forall c :: c in old(activeWants) ==> (c in activeWants <==> now - old(activeWants)[c].sent < timeout)
      ensures timer.Timer? && timer.tick ==> old(timer).Timer? && old(timer).tick
    {
      hide LogOk, Distinct, Elems, Linked, Expirations, Queued, InOrder;
      InOrderExpires(activeWants, wantQueue, now, timeout);
      if |wantQueue| == 0 {
        NoKeys();
        NoEvents(log, now, timeout);
        AllQueued(activeWants, wantQueue);
        NothingQueued(activeWants, wantQueue);
        return [];
      }
      expired := DropExpired(now);
      if |wantQueue| == 0 {
        NothingQueued(activeWants, wantQueue);
        return;
      }
      if stopped {
        return;
      }
      var until := wantQueue[0].sent + timeout - now;
      if timer.NoTimer? {
        timer := Timer(true, now + until, false);
      } else {
        timer := timer.(armed := false);
        timer := timer.(armed := true, due := now + until);
      }
    }

    /** The timer runs out. */
    method TimerFires(now: int)
      requires Valid() && timer.Timer? && timer.armed && timer.due <= now
      modifies this`timer
      ensures Valid() && (old(DeadlineOk()) ==> DeadlineOk()) && timer == old(timer).(armed := false, tick := true)
    {
      timer := timer.(armed := false, tick := true);
    }

    /** The tick is seen, some time after the timer ran out. */
    method ConsumeTimeout(now: int) returns (expired: seq<Cid>)
      requires Valid() && timer.Timer? && timer.tick
      modifies this`activeWants, this`wantQueue, this`timer, this`log
      ensures Valid() && DeadlineOk() && wantQueue == old(Undropped(wantQueue, now, timeout))
      ensures activeWants == Queued(old(activeWants), wantQueue)
      ensures Distinct(expired) && Elems(expired) == old(activeWants).Keys - activeWants.Keys
      ensures log == old(log) + Expirations(expired, now, timeout)
      ensures !(timer.Timer? && timer.tick)
    {
      timer := timer.(tick := false);
      expired := CheckForTimeouts(now);
    }

    method AddOne(c: Cid, start: int)
      requires Valid()
      modifies this`activeWants, this`wantQueue, this`log
      ensures Valid() && activeWants.Keys == old(activeWants).Keys + {c} && old(wantQueue) <= wantQueue
      ensures SentBefore(old(wantQueue), start) ==> SentBefore(wantQueue, start)
      ensures forall d :: d in old(activeWants) ==> activeWants[d] == old(activeWants)[d]
      ensures c !in old(activeWants) ==> activeWants[c].sent == start && fresh(activeWants[c])
      ensures log == old(log) + if c in old(activeWants) then [] else [Added(c, start)]
    {
      hide LogOk, Linked;
      if c in activeWants {
        return;
      }
      var pw := new PendingWant(c, start);
      AddEvent(log, activeWants, c, pw);
      AppendWant(activeWants, wantQueue, pw);
      log := log + [Added(c, start)];
      activeWants := activeWants[c := pw];
      wantQueue := wantQueue + [pw];
    }

    method AddKeys(ks: seq<Cid>, start: int)
      requires Valid()
      modifies this`activeWants, this`wantQueue, this`log
      ensures Valid() && activeWants.Keys == old(activeWants).Keys + Elems(ks) && old(wantQueue) <= wantQueue
      ensures SentBefore(old(wantQueue), start) ==> SentBefore(wantQueue, start)
      ensures forall c :: c in old(activeWants) ==> activeWants[c] == old(activeWants)[c]
      ensures forall c :: c in activeWants && c !in old(activeWants) ==>
                activeWants[c].sent == start && fresh(activeWants[c])
      ensures log == old(log) + Additions(FirstNew(ks, old(activeWants).Keys), start)
    {
      hide LogOk, Elems, Linked, Additions, FirstNew;
      WholeList(ks);
      NoAdditions(log, activeWants.Keys, start);
      for i := 0 to |ks|
        invariant Valid() && activeWants.Keys == old(activeWants).Keys + Elems(ks[..i]) && old(wantQueue) <= wantQueue
        invariant SentBefore(old(wantQueue), start) ==> SentBefore(wantQueue, start)
        invariant forall c :: c in old(activeWants) ==> activeWants[c] == old(activeWants)[c]
        invariant forall c :: c in activeWants && c !in old(activeWants) ==>
                    activeWants[c].sent == start && fresh(activeWants[c])
        invariant log == old(log) + Additions(FirstNew(ks[..i], old(activeWants).Keys), start)
      {
        ElemsStep(ks, i);
        OneMoreAddition(old(log), ks, i, old(activeWants).Keys, start);
        AddOne(ks[i], start);
      }
    }

    /**
     Keys not yet active become active; a key may expire at once if the timeout is that short.
     The queue stays in order if the given time is not before that of a queued want.
     */
    method AddPending(ks: seq<Cid>, start: int, now: int) returns (expired: seq<Cid>)
      requires Valid()
      modifies this`activeWants, this`wantQueue, this`timer, this`log
      ensures Valid() && (old(DeadlineOk()) ==> DeadlineOk())
      ensures ks != [] && old(activeWants) == map[] && activeWants != map[] && !stopped ==>
                && timer.Timer? && timer.armed && timer.due == start + timeout
                && wantQueue != [] && wantQueue[0].active && wantQueue[0].sent == start
      ensures old(activeWants) != map[] ==> old(wantQueue) <= wantQueue
      ensures timer.Timer? && timer.tick ==> old(timer).Timer? && old(timer).tick
      ensures ks == [] || old(activeWants) != map[] ==> expired == []
      ensures Distinct(expired) && Elems(expired) == old(activeWants).Keys + Elems(ks) - activeWants.Keys
      ensures activeWants.Keys <= old(activeWants).Keys + Elems(ks)
      ensures forall c :: c in activeWants && c in old(activeWants) ==> activeWants[c] == old(activeWants)[c]
      ensures forall c :: c in activeWants && c !in old(activeWants) ==> activeWants[c].sent == start
      ensures now - start < timeout ==> expired == []
      ensures SentBefore(old(wantQueue), start) ==> SentBefore(wantQueue, start)
      ensures log == old(log) + Additions(FirstNew(ks, old(activeWants).Keys), start)
              + Expirations(expired, now, timeout)
    {
      hide LogOk, Distinct, Elems, Linked, Queued, Undropped, Additions, Expirations, FirstNew, SentBefore;
      expired := [];
      NoKeys();
      NoAdditions(log, activeWants.Keys, start);
      NoExpirations(now, timeout);
      if |ks| == 0 {
        return;
      }
      var queueWasEmpty := |activeWants| == 0;
      AddKeys(ks, start);
      if queueWasEmpty {
        QueuedPart(activeWants, Undropped(wantQueue, now, timeout));
        ghost var k := UndroppedIs(wantQueue, now, timeout);
        FrontIsActive(activeWants, wantQueue, k);
        if SentBefore(wantQueue, start) {
          SentBeforeRest(wantQueue, k, start);
        }
        if now - start < timeout {
          NoneOverdue(activeWants, wantQueue, now, timeout);
        }
        ghost var active := activeWants;
        expired := CheckForTimeouts(now);
        EmptyList(expired);
        NothingQueued(activeWants, wantQueue);
      }
    }

    method CancelOne(c: Cid)
      requires Valid()
      modifies this`activeWants, this`log, wantQueue
      ensures Valid() && (old(DeadlineOk()) ==> DeadlineOk())
      ensures activeWants == old(activeWants) - {c} && log == old(log) + [Cancelled(c)]
    {
      hide LogOk, InOrder;
      CancelEvent(log, activeWants, c);
      if c in activeWants {
        var pw := activeWants[c];
        pw.active := false;
        activeWants := activeWants - {c};
      }
      log := log + [Cancelled(c)];
    }

    /** Answered keys are no longer waited for; their queue entries are left behind, inactive. */
    method CancelPending(ks: seq<Cid>)
      requires Valid()
      modifies this`activeWants, this`log, wantQueue
      ensures Valid() && (old(DeadlineOk()) ==> DeadlineOk()) && activeWants == old(activeWants) - Elems(ks)
      ensures |log| == |old(log)| + |ks| && log[..|old(log)|] == old(log)
      ensures forall i :: 0 <= i < |ks| ==> log[|old(log)| + i] == Cancelled(ks[i])
    {
      hide LogOk, Elems, Linked;
      WholeList(ks);
      assert activeWants - {} == activeWants;
      for i := 0 to |ks|
        invariant Valid() && (old(DeadlineOk()) ==> DeadlineOk()) && activeWants == old(activeWants) - Elems(ks[..i])
        invariant |log| == |old(log)| + i && log[..|old(log)|] == old(log)
        invariant forall j :: 0 <= j < i ==> log[|old(log)| + j] == Cancelled(ks[j])
      {
        ElemsStep(ks, i);
        CancelOne(ks[i]);
      }
    }

    /** A shorter timeout is applied at once; a longer one may leave a check that comes early. */
    method UpdateMessageLatency(elapsed: int, now: int) returns (expired: seq<Cid>)
      requires Valid()
      modifies this`activeWants, this`wantQueue, this`timer, this`log, this`timeout, messageLatency
      ensures Valid() && (old(DeadlineOk()) || timeout < old(timeout) ==> DeadlineOk())
      ensures messageLatency.samples == old(messageLatency.samples) + 1
      ensures timeout == CalculateTimeoutFromMessageLatency()
      ensures wantQueue
              == if timeout < old(timeout) then Undropped(old(wantQueue), now, timeout) else old(wantQueue)
      ensures activeWants == if timeout < old(timeout) then Queued(old(activeWants), wantQueue) else old(activeWants)
      ensures Distinct(expired) && Elems(expired) == old(activeWants).Keys - activeWants.Keys
      ensures log == old(log) + Expirations(expired, now, timeout)
    {
      hide LogOk, Linked, Expirations;
      messageLatency.Update(elapsed);
      var oldTimeout := timeout;
      timeout := CalculateTimeoutFromMessageLatency();
      expired := [];
      NoEvents(log, now, timeout);
      if timeout < oldTimeout {
        expired := CheckForTimeouts(now);
      }
    }

    /** The answer to a ping counts only while no message was answered. */
    method PingMeasured(latency: int, now: int) returns (expired: seq<Cid>)
      requires Valid()
      modifies this`activeWants, this`wantQueue, this`timer, this`log, this`timeout
      ensures Valid() && (old(DeadlineOk()) || messageLatency.samples == 0 ==> DeadlineOk())
      ensures timeout == if messageLatency.samples > 0 then old(timeout) else CalculateTimeoutFromPingLatency(latency)
      ensures wantQueue
              == if messageLatency.samples > 0 then old(wantQueue) else Undropped(old(wantQueue), now, timeout)
      ensures activeWants
              == if messageLatency.samples > 0 then old(activeWants) else Queued(old(activeWants), wantQueue)
      ensures Distinct(expired) && Elems(expired) == old(activeWants).Keys - activeWants.Keys
      ensures log == old(log) + Expirations(expired, now, timeout)
    {
      hide LogOk, Linked, Expirations;
      NoEvents(log, now, timeout);
      if messageLatency.samples > 0 {
        return [];
      }
      timeout := CalculateTimeoutFromPingLatency(latency);
      expired := CheckForTimeouts(now);
    }
  }

  /** A want that is added before the first start may be checked too late. */
  method StartAfterAddingIsLate(c: Cid) returns (m: DontHaveTimeoutManager)
    ensures m.Valid() && c in m.activeWants && !m.stopped && m.timer.Timer? && m.timer.armed
    ensures m.activeWants[c].sent + m.timeout < m.timer.due && !m.DeadlineOk()
  {
    hide LogOk, Linked, SentBefore, Expirations, Additions, FirstNew, Distinct;
    m := new DontHaveTimeoutManager(10, 10, 1, 1, 0);
    var expired := m.AddPending([c], 0, 0);
    assert Elems<Cid>([]) == {} && c in Elems([c]);
    var ping := m.Start(1);
  }

  /** A want that is queued behind a later one is not expired by a check after its timeout. */
  method MixedUpIsExpiredLate(c: Cid, d: Cid) returns (m: DontHaveTimeoutManager)
    requires c != d
    ensures m.Valid() && d in m.activeWants && 12 - m.activeWants[d].sent >= m.timeout
    ensures Undropped(m.wantQueue, 12, m.timeout) == m.wantQueue && Hidden(m.wantQueue, 12, m.timeout)
  {
    hide LogOk, SentBefore, Expirations, Additions, FirstNew, Distinct, Queued, Elems, Undropped;
    m := new DontHaveTimeoutManager(10, 10, 1, 1, 0);
    OneKey(c);
    OneKey(d);
    var expired := m.AddPending([c], 5, 5);
    assert c in m.activeWants;
    ghost var before := m.activeWants.Keys;
    expired := m.AddPending([d], 0, 5);
    NoneMissing(before + Elems([d]), m.activeWants.Keys, d);
    assert d !in before;
    HiddenBehindFront(m.activeWants, m.wantQueue, d, 12, m.timeout);
    expired := m.CheckForTimeouts(12);
    HiddenBehindFront(m.activeWants, m.wantQueue, d, 12, m.timeout);
  }

  lemma NoneMissing(all: set<Cid>, there: set<Cid>, d: Cid)
    requires all - there == {} && d in all
    ensures d in there
  {
    assert d in all - there || d in there;
  }

  lemma OneKey(c: Cid)
    ensures Elems([c]) == {c} && Elems<Cid>([]) == {}
  {
  }

  lemma HiddenBehindFront(active: map<Cid, PendingWant>, queue: seq<PendingWant>, d: Cid, now: int, timeout: int)
    requires Linked(active, queue) && queue != [] && queue[0].active && now - queue[0].sent < timeout
    requires d in active && now - active[d].sent >= timeout
    ensures Undropped(queue, now, timeout) == queue && Queued(active, queue) == active && Hidden(queue, now, timeout)
  {
    AllQueued(active, queue);
    var j :| 0 <= j < |queue| && queue[j] == active[d];
    assert 0 < j;
  }
}
