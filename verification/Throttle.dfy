/** The access-code throttle: a fixed window per client, updated under a lock. */
module Throttle {
  import opened Texts
  import Utf8

  const WINDOW_SECONDS := 300.0
  const MAX_ATTEMPTS := 10

  type Client = string

  /** `(window_started, count)`. */
  datatype Slot = Slot(started: real, count: nat)

  type Attempts = map<Client, Slot>

  /** One locked step of `_evaluator_throttle` with the time read before it. */
  function Attempt(m: Attempts, client: Client, now: real): (Attempts, bool) {
    var found := if client in m then m[client] else Slot(now, 0);
    var slot := if now - found.started > WINDOW_SECONDS then Slot(now, 0) else found;
    if slot.count >= MAX_ATTEMPTS then (m, false)
    else (m[client := Slot(slot.started, slot.count + 1)], true)
  }

  /** A refused attempt leaves the table as it was. */
  lemma RejectionChangesNothing(m: Attempts, client: Client, now: real)
    ensures !Attempt(m, client, now).1 ==> Attempt(m, client, now).0 == m
    ensures !Attempt(m, client, now).1
      <==> client in m && now - m[client].started <= 300.0 && m[client].count >= 10
  {
  }

  /** A first attempt, and one later than 300 s after its window began, is admitted and opens a window of its own. */
  lemma NextWindowOpens(m: Attempts, client: Client, now: real)
    requires client !in m || now > m[client].started + 300.0
    ensures Attempt(m, client, now) == (m[client := Slot(now, 1)], true)
  {
  }

  function Clear(m: Attempts, client: Client): Attempts {
    m - {client}
  }

  /** After a clear the client starts over, and no other client's slot has moved. */
  lemma ClearMeans(m: Attempts, client: Client, other: Client, now: real)
    ensures Attempt(Clear(m, client), client, now) == (m[client := Slot(now, 1)], true)
    ensures other != client ==> SameSlot(m, Clear(m, client), other)
  {
    assert Clear(m, client)[client := Slot(now, 1)] == m[client := Slot(now, 1)];
  }

  datatype Status = NotConfigured | TooMany | Unencodable | WrongCode | Token

  class EvaluatorThrottle {
    var attempts: Attempts

    constructor ()
      ensures attempts == map[]
    {
      attempts := map[];
    }

    method Throttle(client: Client, now: real) returns (admitted: bool)
      modifies this
      ensures (attempts, admitted) == Attempt(old(attempts), client, now)
    {
      var started, count := now, 0;
      if client in attempts {
        started, count := attempts[client].started, attempts[client].count;
      }
      if now - started > WINDOW_SECONDS {
        started, count := now, 0;
      }
      if count >= MAX_ATTEMPTS {
        return false;
      }
      attempts := attempts[client := Slot(started, count + 1)];
      return true;
    }

    method ThrottleClear(client: Client)
      modifies this
      ensures attempts == Clear(old(attempts), client)
    {
      attempts := attempts - {client};
    }

    /**
     * `evaluator_session` when no other request runs between its two locked steps. An unset setting is the
     * empty text; a code without an encoding raises after the attempt is on record.
     */
    method Exchange(client: Client, now: real, configuredCode: Text, configuredToken: Text, code: Text)
      returns (status: Status)
      modifies this
      ensures status == NotConfigured <==> configuredCode == [] || configuredToken == []
      ensures status == NotConfigured ==> attempts == old(attempts)
      ensures status != NotConfigured ==>
        var (after, admitted) := Attempt(old(attempts), client, now);
        var given := StripBlanks(code);
        && (status == TooMany <==> !admitted)
        && (status == Unencodable <==> admitted && !(Scalar(given) && Scalar(configuredCode)))
        && (status == Token <==> admitted && Scalar(configuredCode) && given == configuredCode)
        && attempts == if status == Token then Clear(after, client) else after
    {
      if configuredCode == [] || configuredToken == [] {
        return NotConfigured;
      }
      var admitted := Throttle(client, now);
      if !admitted {
        return TooMany;
      }
      var given, expected := Utf8.Encode(StripBlanks(code)), Utf8.Encode(configuredCode);
      if given.None? || expected.None? {
        return Unencodable;
      }
      Utf8.EncodeInjective(StripBlanks(code), configuredCode);
      if given != expected {
        return WrongCode;
      }
      ThrottleClear(client);
      return Token;
    }
  }

  // --------------------------------------------------------------- whole runs

  /** The locked steps of concurrent requests, in lock order. */
  datatype Event = Try(client: Client, now: real) | Forget(client: Client)

  function Step(m: Attempts, e: Event): Attempts {
    match e
    case Try(client, now) => Attempt(m, client, now).0
    case Forget(client) => Clear(m, client)
  }

  function Run(m: Attempts, events: seq<Event>): Attempts
    decreases |events|
  {
    if events == [] then m else Run(Step(m, events[0]), events[1..])
  }

  /** The stamps of one client's admitted attempts. */
  function Admitted(m: Attempts, events: seq<Event>, client: Client): seq<real>
    decreases |events|
  {
    if events == [] then []
    else
      var e := events[0];
      var rest := Admitted(Step(m, e), events[1..], client);
      if e.Try? && e.client == client && Attempt(m, client, e.now).1 then [e.now] + rest else rest
  }

  function Only(events: seq<Event>, client: Client): seq<Event> {
    if events == [] then []
    else if events[0].client == client then [events[0]] + Only(events[1..], client)
    else Only(events[1..], client)
  }

  predicate SameSlot(a: Attempts, b: Attempts, client: Client) {
    (client in a <==> client in b) && (client in a ==> a[client] == b[client])
  }

  /** Other clients' steps are invisible: a client's slot and admissions depend on its own steps alone. */
  lemma {:induction false} Isolation(a: Attempts, b: Attempts, events: seq<Event>, client: Client)
    requires SameSlot(a, b, client)
    ensures SameSlot(Run(a, events), Run(b, Only(events, client)), client)
    ensures Admitted(a, events, client) == Admitted(b, Only(events, client), client)
    decreases |events|
  {
    if events != [] {
      var e, own := events[0], Only(events[1..], client);
      if e.client == client {
        Isolation(Step(a, e), Step(b, e), events[1..], client);
        assert ([e] + own)[1..] == own;
      } else {
        Isolation(Step(a, e), b, events[1..], client);
      }
    }
  }

  // ------------------------------------------------------------ the window log

  /** A window and the stamps admitted into it. */
  datatype Window = Window(started: real, stamps: seq<real>)

  /** A log that never forgets a window; the table keeps only the last one's start and size. */
  function Record(log: seq<Window>, now: real): seq<Window> {
    if log == [] || now - log[|log| - 1].started > WINDOW_SECONDS then log + [Window(now, [now])]
    else
      var last := log[|log| - 1];
      if |last.stamps| >= MAX_ATTEMPTS then log
      else log[..|log| - 1] + [Window(last.started, last.stamps + [now])]
  }

  function RecordAll(log: seq<Window>, stamps: seq<real>): seq<Window>
    decreases |stamps|
  {
    if stamps == [] then log else RecordAll(Record(log, stamps[0]), stamps[1..])
  }

  function Flatten(log: seq<Window>): seq<real> {
    if log == [] then [] else Flatten(log[..|log| - 1]) + log[|log| - 1].stamps
  }

  /** The stamps a client presents, admitted or not. */
  function Stamps(events: seq<Event>, client: Client): seq<real> {
    if events == [] then []
    else if events[0].Try? && events[0].client == client then [events[0].now] + Stamps(events[1..], client)
    else Stamps(events[1..], client)
  }

  predicate NeverCleared(events: seq<Event>, client: Client) {
    Forget(client) !in events
  }

  predicate Represents(m: Attempts, client: Client, log: seq<Window>) {
    if log == [] then client !in m
    else client in m && m[client] == Slot(log[|log| - 1].started, |log[|log| - 1].stamps|)
  }

  lemma RecordStep(m: Attempts, client: Client, now: real, log: seq<Window>)
    requires Represents(m, client, log)
    ensures Represents(Attempt(m, client, now).0, client, Record(log, now))
    ensures Flatten(Record(log, now)) == Flatten(log) + (if Attempt(m, client, now).1 then [now] else [])
  {
    var next := Record(log, now);
    if next != log {
      assert next[..|next| - 1] == if |next| > |log| then log else log[..|log| - 1];
      if |next| == |log| {
        assert Flatten(next) == Flatten(log[..|log| - 1]) + (log[|log| - 1].stamps + [now]);
      }
    }
  }

  /** Refinement: the table and its answers are those of the log, over every interleaving without a clear. */
  lemma {:induction false} TableRefinesLog(m: Attempts, events: seq<Event>, client: Client, log: seq<Window>)
    requires Represents(m, client, log) && NeverCleared(events, client)
    ensures var final := RecordAll(log, Stamps(events, client));
      && Represents(Run(m, events), client, final)
      && Flatten(final) == Flatten(log) + Admitted(m, events, client)
    decreases |events|
  {
    hide Record, Attempt, Flatten, Represents;
    if events != [] {
      var e := events[0];
      assert events == [e] + events[1..];
      if e.Try? && e.client == client {
        RecordStep(m, client, e.now, log);
        TableRefinesLog(Step(m, e), events[1..], client, Record(log, e.now));
        var rest := Stamps(events[1..], client);
        assert ([e.now] + rest)[1..] == rest;
      } else {
        OtherStep(m, e, client, log);
        TableRefinesLog(Step(m, e), events[1..], client, log);
      }
    }
  }

  lemma OtherStep(m: Attempts, e: Event, client: Client, log: seq<Window>)
    requires Represents(m, client, log) && e.client != client
    ensures Represents(Step(m, e), client, log)
  {
  }

  /** No attempt is stamped more than `lag` seconds before one that took the lock earlier. */
  predicate Lags(stamps: seq<real>, lag: real) {
    forall i, j | 0 <= i < j < |stamps| :: stamps[i] - stamps[j] <= lag
  }

  /** Windows of at most ten, more than a window length apart, each holding stamps near its start. */
  predicate GoodWindow(w: Window, lag: real) {
    && 1 <= |w.stamps| <= MAX_ATTEMPTS
    && forall i | 0 <= i < |w.stamps| :: w.started - lag <= w.stamps[i] <= w.started + WINDOW_SECONDS
  }

  predicate GoodLog(log: seq<Window>, lag: real) {
    && (forall i | 0 <= i < |log| :: GoodWindow(log[i], lag))
    && (forall i, j | 0 <= i < j < |log| :: log[j].started - log[i].started > WINDOW_SECONDS)
  }

  /** What the log knows of the attempts still to come. */
  predicate StartsBefore(log: seq<Window>, stamps: seq<real>, lag: real) {
    forall i, j | 0 <= i < |log| && 0 <= j < |stamps| :: log[i].started - stamps[j] <= lag
  }

  lemma RecordGood(log: seq<Window>, now: real, lag: real)
    requires lag >= 0.0 && GoodLog(log, lag) && StartsBefore(log, [now], lag)
    ensures GoodLog(Record(log, now), lag)
    ensures forall i | 0 <= i < |Record(log, now)| ::
      Record(log, now)[i].started == now || exists j | 0 <= j < |log| :: log[j].started == Record(log, now)[i].started
  {
    var next := Record(log, now);
    assert [now][0] == now;
    forall i | 0 <= i < |next|
      ensures next[i].started == now || exists j | 0 <= j < |log| :: log[j].started == next[i].started
    {
      if i < |log| {
        assert log[i].started == next[i].started;
      }
    }
  }

  lemma {:induction false} RecordAllGood(log: seq<Window>, stamps: seq<real>, lag: real)
    requires lag >= 0.0 && GoodLog(log, lag) && Lags(stamps, lag) && StartsBefore(log, stamps, lag)
    ensures GoodLog(RecordAll(log, stamps), lag)
    decreases |stamps|
  {
    if stamps != [] {
      var next := Record(log, stamps[0]);
      RecordGood(log, stamps[0], lag);
      forall i, j | 0 <= i < |next| && 0 <= j < |stamps[1..]| ensures next[i].started - stamps[1..][j] <= lag {
        assert stamps[1..][j] == stamps[j + 1];
        if next[i].started != stamps[0] {
          var k :| 0 <= k < |log| && log[k].started == next[i].started;
        }
      }
      RecordAllGood(next, stamps[1..], lag);
    }
  }

  /**
   * The admissions of a client never cleared fall into windows that start more than 300 s apart and
   * admit at most ten each; the table holds the last window's start and size.
   */
  lemma RunWindows(m: Attempts, events: seq<Event>, client: Client, lag: real)
    requires client !in m && NeverCleared(events, client)
    requires lag >= 0.0 && Lags(Stamps(events, client), lag)
    ensures var log := RecordAll([], Stamps(events, client));
      && GoodLog(log, lag)
      && Flatten(log) == Admitted(m, events, client)
      && Represents(Run(m, events), client, log)
  {
    hide GoodLog, Lags, RecordAll, Admitted, Stamps, Flatten, StartsBefore, Represents, Run;
    FreshLog(m, client, Stamps(events, client), lag);
    TableRefinesLog(m, events, client, []);
    RecordAllGood([], Stamps(events, client), lag);
    assert [] + Admitted(m, events, client) == Admitted(m, events, client);
  }

  lemma FreshLog(m: Attempts, client: Client, stamps: seq<real>, lag: real)
    requires client !in m
    ensures Represents(m, client, []) && GoodLog([], lag) && StartsBefore([], stamps, lag) && Flatten([]) == []
  {
  }

  // ------------------------------------------------------------------ counting

  function CountIn(stamps: seq<real>, lo: real, hi: real): nat {
    if stamps == [] then 0
    else CountIn(stamps[..|stamps| - 1], lo, hi) + if lo <= stamps[|stamps| - 1] <= hi then 1 else 0
  }

  lemma {:induction false} CountConcat(a: seq<real>, b: seq<real>, lo: real, hi: real)
    ensures CountIn(a + b, lo, hi) == CountIn(a, lo, hi) + CountIn(b, lo, hi)
    ensures CountIn(b, lo, hi) <= |b|
  {
    if b == [] {
      assert a + b == a;
    } else {
      var front := b[..|b| - 1];
      assert (a + b)[..|a + b| - 1] == a + front;
      CountConcat(a, front, lo, hi);
    }
  }

  lemma {:induction false} CountOutside(stamps: seq<real>, lo: real, hi: real)
    requires forall i | 0 <= i < |stamps| :: !(lo <= stamps[i] <= hi)
    ensures CountIn(stamps, lo, hi) == 0
  {
    if stamps != [] {
      CountOutside(stamps[..|stamps| - 1], lo, hi);
    }
  }

  function StartsIn(log: seq<Window>, lo: real, hi: real): nat {
    if log == [] then 0
    else StartsIn(log[..|log| - 1], lo, hi) + if lo <= log[|log| - 1].started <= hi then 1 else 0
  }

  /** Only windows that start near the interval reach into it, with ten stamps each at the most. */
  lemma {:induction false} CountByWindows(log: seq<Window>, lag: real, lo: real, hi: real)
    requires GoodLog(log, lag)
    ensures CountIn(Flatten(log), lo, hi) <= MAX_ATTEMPTS * StartsIn(log, lo - WINDOW_SECONDS, hi + lag)
  {
    if log != [] {
      var front, last := log[..|log| - 1], log[|log| - 1];
      CountByWindows(front, lag, lo, hi);
      CountConcat(Flatten(front), last.stamps, lo, hi);
      if !(lo - WINDOW_SECONDS <= last.started <= hi + lag) {
        CountOutside(last.stamps, lo, hi);
      }
    }
  }

  /** Starts more than a window apart: `k` of them span more than `k - 1` windows. */
  lemma {:induction false} StartsSpread(log: seq<Window>, lag: real, lo: real, hi: real)
    requires GoodLog(log, lag) && lo <= hi
    ensures var k := StartsIn(log, lo, hi);
      k > 1 ==> (k - 1) as real * WINDOW_SECONDS < hi - lo
    ensures log != [] && StartsIn(log, lo, hi) > 0 ==>
      (StartsIn(log, lo, hi) - 1) as real * WINDOW_SECONDS <= log[|log| - 1].started - lo
  {
    if log != [] {
      var front, last := log[..|log| - 1], log[|log| - 1];
      StartsSpread(front, lag, lo, hi);
      if front != [] {
        assert last.started - front[|front| - 1].started > WINDOW_SECONDS;
      }
    }
  }

  function Ceiling(x: real): int {
    -((-x).Floor)
  }

  lemma CeilingBound(k: nat, span: real)
    requires span >= 0.0
    requires k > 1 ==> (k - 1) as real * WINDOW_SECONDS < span + WINDOW_SECONDS
    ensures k <= Ceiling(span / WINDOW_SECONDS) + 1
  {
    var x := span / WINDOW_SECONDS;
    assert x >= 0.0;
    if k > 1 {
      assert (k - 2) as real < x;
      assert (2 - k) as real > -x;
    }
  }

  /**
   * At most ten admissions a window over any interval, for every interleaving in which the client is
   * never cleared and a stamp is at most `lag` seconds older than one that took the lock before it.
   */
  lemma IntervalBound(m: Attempts, events: seq<Event>, client: Client, lag: real, from: real, length: real)
    requires client !in m && NeverCleared(events, client)
    requires lag >= 0.0 && Lags(Stamps(events, client), lag) && length >= 0.0
    ensures CountIn(Admitted(m, events, client), from, from + length)
         <= MAX_ATTEMPTS * (Ceiling((length + lag) / WINDOW_SECONDS) + 1)
  {
    hide Ceiling, CountIn, StartsIn, GoodLog, Lags, RecordAll, Admitted, Stamps, Flatten, Represents, Run;
    var log := RecordAll([], Stamps(events, client));
    RunWindows(m, events, client, lag);
    CountByWindows(log, lag, from, from + length);
    StartsSpread(log, lag, from - WINDOW_SECONDS, from + length + lag);
    CeilingBound(StartsIn(log, from - WINDOW_SECONDS, from + length + lag), length + lag);
  }

  // ----------------------------------------- stamps read before the lock is taken

  function Repeat(n: nat, now: real): (r: seq<real>)
    ensures |r| == n
  {
    if n == 0 then [] else [now] + Repeat(n - 1, now)
  }

  function Tries(client: Client, stamps: seq<real>): seq<Event> {
    if stamps == [] then [] else [Try(client, stamps[0])] + Tries(client, stamps[1..])
  }

  /** The last nine requests had read the clock before the request that opened the window they fill. */
  function LateStamps(e: real): seq<real> {
    [0.0] + (Repeat(9, 300.0)
    + ([300.0 + e] + (Repeat(9, 300.0 + e)
    + ([600.0 + 2.0 * e] + Repeat(9, 600.0 - 4.0 * e)))))
  }

  lemma {:induction false} TriesStamps(client: Client, stamps: seq<real>)
    ensures Stamps(Tries(client, stamps), client) == stamps && NeverCleared(Tries(client, stamps), client)
  {
    if stamps != [] {
      TriesStamps(client, stamps[1..]);
      assert Tries(client, stamps)[1..] == Tries(client, stamps[1..]);
    }
  }

  lemma {:induction false} RecordAllConcat(log: seq<Window>, a: seq<real>, b: seq<real>)
    ensures RecordAll(log, a + b) == RecordAll(RecordAll(log, a), b)
    decreases |a|
  {
    if a == [] {
      assert a + b == b;
    } else {
      assert (a + b)[1..] == a[1..] + b;
      RecordAllConcat(Record(log, a[0]), a[1..], b);
    }
  }

  lemma RecordInto(front: seq<Window>, last: Window, now: real)
    requires now - last.started <= WINDOW_SECONDS && |last.stamps| < MAX_ATTEMPTS
    ensures Record(front + [last], now) == front + [Window(last.started, last.stamps + [now])]
  {
    assert (front + [last])[..|front|] == front;
  }

  lemma RecordAllStep(log: seq<Window>, now: real, rest: seq<real>)
    ensures RecordAll(log, [now] + rest) == RecordAll(Record(log, now), rest)
  {
    assert ([now] + rest)[1..] == rest;
  }

  lemma {:induction false} RecordRepeat(front: seq<Window>, last: Window, n: nat, now: real)
    requires now - last.started <= WINDOW_SECONDS && |last.stamps| + n <= MAX_ATTEMPTS
    ensures RecordAll(front + [last], Repeat(n, now)) == front + [Window(last.started, last.stamps + Repeat(n, now))]
    decreases n
  {
    if n > 0 {
      var grown := Window(last.started, last.stamps + [now]);
      hide RecordAll, Record;
      RecordInto(front, last, now);
      RepeatFirst(n, now);
      RecordAllStep(front + [last], now, Repeat(n - 1, now));
      RecordRepeat(front, grown, n - 1, now);
      assert grown.stamps + Repeat(n - 1, now) == last.stamps + Repeat(n, now);
    } else {
      assert last.stamps + [] == last.stamps;
    }
  }

  lemma RecordOpens(log: seq<Window>, now: real, rest: seq<real>)
    requires log != [] ==> now - log[|log| - 1].started > WINDOW_SECONDS
    ensures RecordAll(log, [now] + rest) == RecordAll(log + [Window(now, [now])], rest)
  {
    assert ([now] + rest)[1..] == rest;
  }

  lemma {:induction false} CountRepeat(n: nat, now: real, lo: real, hi: real)
    requires lo <= now <= hi
    ensures CountIn(Repeat(n, now), lo, hi) == n
  {
    if n > 0 {
      CountRepeat(n - 1, now, lo, hi);
      CountConcat([now], Repeat(n - 1, now), lo, hi);
      assert CountIn([now], lo, hi) == 1 by {
        assert [now][..0] == [];
      }
    }
  }

  lemma RepeatFirst(n: nat, now: real)
    requires n > 0
    ensures Repeat(n, now) == [now] + Repeat(n - 1, now)
  {
  }

  lemma {:induction false} RepeatAt(n: nat, now: real, i: int)
    requires 0 <= i < n
    ensures Repeat(n, now)[i] == now
  {
    if i > 0 {
      RepeatAt(n - 1, now, i - 1);
    }
  }

  lemma LateAt(e: real, i: int)
    requires 0 <= i < 30
    ensures |LateStamps(e)| == 30
    ensures LateStamps(e)[i]
         == if i == 0 then 0.0 else if i < 10 then 300.0 else if i < 20 then 300.0 + e
            else if i == 20 then 600.0 + 2.0 * e else 600.0 - 4.0 * e
  {
    hide Repeat;
    if 1 <= i < 10 {
      RepeatAt(9, 300.0, i - 1);
    } else if 11 <= i < 20 {
      RepeatAt(9, 300.0 + e, i - 11);
    } else if 21 <= i {
      RepeatAt(9, 600.0 - 4.0 * e, i - 21);
    }
  }

  lemma LateLags(e: real, lag: real)
    requires 0.0 < e <= 1.0 && 6.0 * e <= lag
    ensures Lags(LateStamps(e), lag)
  {
    hide LateStamps;
    LateAt(e, 0);
    forall i, j | 0 <= i < j < |LateStamps(e)| ensures LateStamps(e)[i] - LateStamps(e)[j] <= lag {
      LateAt(e, i);
      LateAt(e, j);
    }
  }

  /** Window by window: nine late requests, ten in order, and nine whose stamps precede their window. */
  function LateWindows(e: real): seq<Window> {
    [Window(0.0, [0.0] + Repeat(9, 300.0)), Window(300.0 + e, [300.0 + e] + Repeat(9, 300.0 + e)),
     Window(600.0 + 2.0 * e, [600.0 + 2.0 * e] + Repeat(9, 600.0 - 4.0 * e))]
  }

  lemma LateLog(e: real)
    requires 0.0 < e <= 1.0
    ensures RecordAll([], LateStamps(e)) == LateWindows(e)
  {
    hide Record, RecordAll, Repeat;
    var x, y, z := 300.0 + e, 600.0 + 2.0 * e, 600.0 - 4.0 * e;
    var w1, w2 := Window(0.0, [0.0] + Repeat(9, 300.0)), Window(x, [x] + Repeat(9, x));
    var tail2 := [y] + Repeat(9, z);
    var tail1 := [x] + (Repeat(9, x) + tail2);
    RecordOpens([], 0.0, Repeat(9, 300.0) + tail1);
    assert [] + [Window(0.0, [0.0])] == [Window(0.0, [0.0])];
    RecordAllConcat([Window(0.0, [0.0])], Repeat(9, 300.0), tail1);
    RecordRepeat([], Window(0.0, [0.0]), 9, 300.0);
    assert [] + [w1] == [w1];
    RecordOpens([w1], x, Repeat(9, x) + tail2);
    RecordAllConcat([w1] + [Window(x, [x])], Repeat(9, x), tail2);
    RecordRepeat([w1], Window(x, [x]), 9, x);
    RecordOpens([w1] + [w2], y, Repeat(9, z));
    RecordRepeat([w1] + [w2], Window(y, [y]), 9, z);
  }

  lemma LateFlat(e: real)
    ensures Flatten(LateWindows(e)) == LateStamps(e)
  {
    hide Repeat;
    var w := LateWindows(e);
    assert w[..2] == [w[0], w[1]] && [w[0], w[1]][..1] == [w[0]] && [w[0]][..0] == [];
    assert Flatten([w[0]]) == [] + w[0].stamps;
    assert Flatten(w) == w[0].stamps + w[1].stamps + w[2].stamps;
  }

  lemma LateCount(e: real)
    requires 0.0 < e <= 1.0
    ensures CountIn(LateStamps(e), 300.0, 600.0 - 4.0 * e) == 28
  {
    hide Repeat, CountIn;
    var lo, hi, x, y, z := 300.0, 600.0 - 4.0 * e, 300.0 + e, 600.0 + 2.0 * e, 600.0 - 4.0 * e;
    var a, b, c := Repeat(9, 300.0), Repeat(9, x), Repeat(9, z);
    CountRepeat(9, 300.0, lo, hi);
    CountRepeat(9, x, lo, hi);
    CountRepeat(1, x, lo, hi);
    CountRepeat(9, z, lo, hi);
    assert Repeat(1, x) == [x] by {
      RepeatFirst(1, x);
      assert |Repeat(0, x)| == 0;
    }
    CountOutside([0.0], lo, hi);
    CountOutside([y], lo, hi);
    CountConcat([y], c, lo, hi);
    CountConcat(b, [y] + c, lo, hi);
    CountConcat([x], b + ([y] + c), lo, hi);
    CountConcat(a, [x] + (b + ([y] + c)), lo, hi);
    CountConcat([0.0], a + ([x] + (b + ([y] + c))), lo, hi);
  }

  /** The bound for stamps in lock order. */
  predicate WithinBound(events: seq<Event>, client: Client, from: real, length: real) {
    CountIn(Admitted(map[], events, client), from, from + length)
      <= MAX_ATTEMPTS * (Ceiling(length / WINDOW_SECONDS) + 1)
  }

  /** The late run admits every one of its attempts. */
  lemma LateAdmitted(client: Client, e: real)
    requires 0.0 < e <= 1.0
    ensures Admitted(map[], Tries(client, LateStamps(e)), client) == LateStamps(e)
  {
    hide RecordAll, Admitted, Stamps, LateStamps, LateWindows, Tries, Run, Flatten, Represents;
    var events := Tries(client, LateStamps(e));
    TriesStamps(client, LateStamps(e));
    LateLog(e);
    LateFlat(e);
    FreshLog(map[], client, [], 0.0);
    TableRefinesLog(map[], events, client, []);
    assert [] + Admitted(map[], events, client) == Admitted(map[], events, client);
  }

  lemma CeilingOfOne(length: real)
    requires 0.0 < length < WINDOW_SECONDS
    ensures Ceiling(length / WINDOW_SECONDS) == 1
  {
    var x := length / WINDOW_SECONDS;
    assert -1.0 < -x < 0.0;
  }

  /** 28 admissions in less than a window's length, where lock order allows 20, for any lag however small. */
  lemma LateStampsExceedBound(client: Client, lag: real) returns (events: seq<Event>, from: real, length: real)
    requires lag > 0.0
    ensures NeverCleared(events, client) && Lags(Stamps(events, client), lag) && 0.0 < length < WINDOW_SECONDS
    ensures CountIn(Admitted(map[], events, client), from, from + length) == 28
    ensures MAX_ATTEMPTS * (Ceiling(length / WINDOW_SECONDS) + 1) == 20
  {
    hide Admitted, Stamps, LateStamps, CountIn, Tries, Lags, Ceiling, NeverCleared;
    var e := if lag < 12.0 then lag / 12.0 else 1.0;
    assert 0.0 < e <= 1.0 && 6.0 * e <= lag;
    events, from, length := Tries(client, LateStamps(e)), 300.0, 300.0 - 4.0 * e;
    TriesStamps(client, LateStamps(e));
    LateLags(e, lag);
    LateAdmitted(client, e);
    LateCount(e);
    CeilingOfOne(length);
    assert from + length == 600.0 - 4.0 * e;
  }

  /** The ordered bound, claimed of every run whose stamps are at most `lag` seconds out of lock order. */
  ghost predicate BoundHolds(client: Client, lag: real) {
    forall events: seq<Event>, from: real, length: real
      | NeverCleared(events, client) && Lags(Stamps(events, client), lag) && length > 0.0
      :: WithinBound(events, client, from, length)
  }

  /** It holds exactly when no stamp is out of order. */
  lemma OrderedBoundExact(client: Client, lag: real)
    requires lag >= 0.0
    ensures BoundHolds(client, lag) <==> lag == 0.0
  {
    hide Lags, Stamps, CountIn, Admitted, NeverCleared, Ceiling;
    if lag > 0.0 {
      var events, from, length := LateStampsExceedBound(client, lag);
      assert !WithinBound(events, client, from, length);
    } else {
      forall events: seq<Event>, from: real, length: real
        | NeverCleared(events, client) && Lags(Stamps(events, client), lag) && length > 0.0
        ensures WithinBound(events, client, from, length)
      {
        IntervalBound(map[], events, client, lag, from, length);
      }
    }
  }
}
