/** The alert feed: the seed alerts, the simulator tick that may emit a
    new alert, the bounded newest-first history and the notification flag.

    The interval and the notification timeout are not modelled as timers:
    a tick and a clear are explicit transitions of `FeedState`, and the
    random values and clock reading a tick consumes are its parameters. */
module AlertFeed {
  import opened SeqUtil
  import opened Optional
  import opened Random
  import opened Dedup

  /** An alert without its two floating-point prices. `timestamp` is in
      milliseconds of the wall clock. */
  datatype Alert = Alert(
    id: int,
    coin: string,
    coinSymbol: string,
    traders: seq<string>,
    timestamp: int)

  /** The alert-related part of the view state. */
  datatype FeedState = FeedState(
    alerts: seq<Alert>,
    newAlert: Option<Alert>,
    showNotification: bool)

  /** Most alerts the history retains. */
  const MaxAlerts: nat := 20

  // ---------------------------------------------------------------------
  // Retention: prepend and truncate

  /** The new alert in front of at most the first 19 earlier ones. */
  function Insert(a: Alert, prev: seq<Alert>): (r: seq<Alert>)
    ensures |r| == Min(|prev| + 1, MaxAlerts)
    ensures r[0] == a
    ensures r[1..] == prev[..|r| - 1]
  {
    [a] + prev[..if |prev| < 19 then |prev| else 19]
  }

  /** The history after inserting `xs` in order, oldest first. */
  function InsertAll(xs: seq<Alert>, prev: seq<Alert>): seq<Alert> {
    if |xs| == 0 then prev
    else Insert(xs[|xs| - 1], InsertAll(xs[..|xs| - 1], prev))
  }

  /** Ring-buffer retention: after any number of insertions the history is
      the newest `MaxAlerts` alerts, newest first. */
  lemma {:induction false} InsertAllKeepsNewest(xs: seq<Alert>, prev: seq<Alert>)
    requires |prev| <= MaxAlerts
    ensures InsertAll(xs, prev) == Take(Reverse(xs) + prev, MaxAlerts)
  {
    if |xs| > 0 {
      var init, last := xs[..|xs| - 1], xs[|xs| - 1];
      InsertAllKeepsNewest(init, prev);
      ReverseSnoc(init, last);
      assert xs == init + [last];
      InsertTake(last, Reverse(init) + prev);
    }
  }

  /** Inserting into the newest `MaxAlerts` of a list keeps the newest
      `MaxAlerts` of the extended list. */
  lemma InsertTake(a: Alert, s: seq<Alert>)
    ensures Insert(a, Take(s, MaxAlerts)) == Take([a] + s, MaxAlerts)
  {
    var w := [a] + s;
    if |w| > MaxAlerts {
      assert Take(s, MaxAlerts)[..19] == s[..19];
      assert w[..MaxAlerts] == [a] + s[..19];
    }
  }

  // ---------------------------------------------------------------------
  // Alert synthesis

  /** Coin pool of the simulator. */
  const SimCoins: seq<string> := ["BTC", "ETH", "SOL", "DOGE", "SHIB", "BONK", "JUP", "ONDO"]

  /** Trader-name pool of the simulator. */
  const SimTraderNames: seq<string> := ["CryptoWhale", "MoonHunter", "DiamondHands", "AlphaSeeker", "ChainMaster"]

  /** A tick emits when its gate draw exceeds this value. */
  const EmitThreshold: real := 0.7

  /** The values one tick consumes: the coin draw (made on every tick),
      the gate draw, and, when the gate opens, the trader-count draw, one
      pick per drawn name, and two clock readings: the one the id is taken
      from and the later one the timestamp is taken from. The two readings
      are independent inputs; nothing relates them. */
  datatype TickInput = TickInput(
    coinDraw: real,
    gate: real,
    countDraw: real,
    picks: seq<real>,
    idMs: int,
    stampMs: int)

  predicate ValidTickInput(t: TickInput) {
    && IsDraw(t.coinDraw)
    && IsDraw(t.gate)
    && (t.gate > EmitThreshold ==> IsTraderDraw(5, 3, t.countDraw, t.picks))
  }

  predicate Emits(t: TickInput) {
    t.gate > EmitThreshold
  }

  /** The alert a tick synthesizes: its id is the first clock reading and
      its timestamp the second, coin and symbol are the same drawn coin,
      and its traders are 5 to 7 drawn names with repeats removed. */
  function SimulatedAlert(t: TickInput): (a: Alert)
    requires ValidTickInput(t) && Emits(t)
    ensures a.id == t.idMs && a.timestamp == t.stampMs
    ensures a.coin == a.coinSymbol && a.coin in SimCoins
    ensures NoDup(a.traders) && 1 <= |a.traders| <= 5
    ensures forall n :: n in a.traders ==> n in SimTraderNames
  {
    var coin := SimCoins[PickIndex(t.coinDraw, |SimCoins|)];
    Alert(t.idMs, coin, coin, DrawTraders(SimTraderNames, 5, 3, t.countDraw, t.picks), t.stampMs)
  }

  // ---------------------------------------------------------------------
  // Transitions

  /** One run of the interval callback. */
  function Tick(s: FeedState, t: TickInput): (s': FeedState)
    requires ValidTickInput(t)
    ensures !Emits(t) ==> s' == s
    ensures Emits(t) ==>
      && s'.newAlert == Some(SimulatedAlert(t))
      && s'.showNotification
      && s'.alerts == Insert(SimulatedAlert(t), s.alerts)
  {
    if Emits(t) then
      var a := SimulatedAlert(t);
      FeedState(Insert(a, s.alerts), Some(a), true)
    else
      s
  }

  /** The timeout callback: it hides the notification. */
  function Clear(s: FeedState): (s': FeedState)
    ensures !s'.showNotification
    ensures s'.alerts == s.alerts && s'.newAlert == s.newAlert
  {
    s.(showNotification := false)
  }

  /** Steps the view state can take. */
  datatype Event = TickEvent(input: TickInput) | ClearEvent

  predicate ValidEvents(evs: seq<Event>) {
    forall k :: 0 <= k < |evs| ==> (evs[k].TickEvent? ==> ValidTickInput(evs[k].input))
  }

  function Step(s: FeedState, e: Event): FeedState
    requires e.TickEvent? ==> ValidTickInput(e.input)
  {
    match e
    case TickEvent(t) => Tick(s, t)
    case ClearEvent => Clear(s)
  }

  /** An event that emits no alert. */
  predicate Silent(e: Event) {
    e.ClearEvent? || !Emits(e.input)
  }

  /** The state after a sequence of events, first event first. The history
      never grows past the cap (or past its starting length, if that was
      larger); events that emit nothing leave history and pointer alone;
      and a final clear leaves the notification hidden. */
  function Run(s: FeedState, evs: seq<Event>): (r: FeedState)
    requires ValidEvents(evs)
    ensures |r.alerts| <= if |s.alerts| > MaxAlerts then |s.alerts| else MaxAlerts
    ensures (forall k :: 0 <= k < |evs| ==> Silent(evs[k])) ==>
      r.alerts == s.alerts && r.newAlert == s.newAlert
    ensures |evs| > 0 && evs[|evs| - 1].ClearEvent? ==> !r.showNotification
    ensures |evs| > 0 && !Silent(evs[|evs| - 1]) ==>
      r.showNotification && r.newAlert.Some? && |r.alerts| > 0 && r.alerts[0] == r.newAlert.value
  {
    if |evs| == 0 then s
    else
      var prefix := evs[..|evs| - 1];
      assert ValidEvents(prefix) by {
        forall k | 0 <= k < |prefix| ensures prefix[k].TickEvent? ==> ValidTickInput(prefix[k].input) {
          assert prefix[k] == evs[k];
        }
      }
      assert (forall k :: 0 <= k < |evs| ==> Silent(evs[k])) ==>
        (forall k :: 0 <= k < |prefix| ==> Silent(prefix[k]));
      Step(Run(s, prefix), evs[|evs| - 1])
  }

  // ---------------------------------------------------------------------
  // Invariant

  /** What every reachable feed state satisfies: a bounded history of
      alerts whose trader lists have no repeats, the notification shown
      only with an alert to show, and that alert at the head of the history. */
  predicate Valid(s: FeedState) {
    && |s.alerts| <= MaxAlerts
    && (forall k :: 0 <= k < |s.alerts| ==> NoDup(s.alerts[k].traders))
    && (s.showNotification ==> s.newAlert.Some?)
    && (s.newAlert.Some? ==> |s.alerts| > 0 && s.alerts[0] == s.newAlert.value)
  }

  lemma TickPreservesValid(s: FeedState, t: TickInput)
    requires Valid(s) && ValidTickInput(t)
    ensures Valid(Tick(s, t))
  {
    if Emits(t) {
      var s' := Tick(s, t);
      forall k | 0 <= k < |s'.alerts| ensures NoDup(s'.alerts[k].traders) {
        if k > 0 {
          assert s'.alerts[k] == s'.alerts[1..][k - 1] == s.alerts[k - 1];
        }
      }
    }
  }

  lemma ClearPreservesValid(s: FeedState)
    requires Valid(s)
    ensures Valid(Clear(s))
  {
  }

  /** Every state reached from a valid state by ticks and clears is valid. */
  lemma {:induction false} RunPreservesValid(s: FeedState, evs: seq<Event>)
    requires Valid(s) && ValidEvents(evs)
    ensures Valid(Run(s, evs))
  {
    if |evs| > 0 {
      var prefix := evs[..|evs| - 1];
      assert ValidEvents(prefix) by {
        forall k | 0 <= k < |prefix| ensures prefix[k].TickEvent? ==> ValidTickInput(prefix[k].input) {
          assert prefix[k] == evs[k];
        }
      }
      RunPreservesValid(s, prefix);
      var mid := Run(s, prefix);
      match evs[|evs| - 1]
      case TickEvent(t) => TickPreservesValid(mid, t);
      case ClearEvent => ClearPreservesValid(mid);
    }
  }

  /** An emitting tick grows the history by one alert, or keeps it at the
      cap by dropping the oldest; a silent tick changes nothing. */
  lemma TickAlertCount(s: FeedState, t: TickInput)
    requires ValidTickInput(t)
    ensures Emits(t) && |s.alerts| < MaxAlerts ==> |Tick(s, t).alerts| == |s.alerts| + 1
    ensures Emits(t) && |s.alerts| >= MaxAlerts ==>
      |Tick(s, t).alerts| == MaxAlerts && Tick(s, t).alerts[1..] == s.alerts[..MaxAlerts - 1]
    ensures !Emits(t) ==> Tick(s, t).alerts == s.alerts
  {
  }

  /** Clearing twice is clearing once, and a clear after an emitting tick
      hides the notification but keeps the alert it pointed to. */
  lemma ClearAfterTick(s: FeedState, t: TickInput)
    requires ValidTickInput(t) && Emits(t)
    ensures Clear(Clear(s)) == Clear(s)
    ensures Clear(Tick(s, t)).newAlert == Some(SimulatedAlert(t))
    ensures !Clear(Tick(s, t)).showNotification
    ensures Clear(Tick(s, t)).alerts[0] == SimulatedAlert(t)
  {
  }

  // ---------------------------------------------------------------------
  // Seed alerts

  /** Coins of the seed alerts, as (symbol, name). */
  const SeedCoins: seq<(string, string)> := [
    ("SOL", "Solana"), ("ETH", "Ethereum"), ("ARB", "Arbitrum"),
    ("PEPE", "Pepe"), ("WIF", "dogwifhat")]

  /** Trader-name pool of the seed alerts. */
  const SeedTraderNames: seq<string> := [
    "CryptoWhale", "MoonHunter", "DiamondHands", "AlphaSeeker",
    "ChainMaster", "TokenKing", "DeFiWizard", "BlockBaron"]

  const DayMs: int := 3600000 * 24

  /** The values one seed alert consumes: trader count, picks, age draw,
      and the clock reading its timestamp is computed from. Each seed alert
      reads the clock on its own. */
  datatype SeedInput = SeedInput(countDraw: real, picks: seq<real>, ageDraw: real, nowMs: int)

  predicate ValidSeedInput(d: SeedInput) {
    IsTraderDraw(5, 4, d.countDraw, d.picks) && IsDraw(d.ageDraw)
  }

  /** A `Date` built from a fractional millisecond count keeps its integer
      part, rounding toward zero. */
  function TruncateMs(x: real): (t: int)
    ensures x >= 0.0 ==> 0 <= t && t as real <= x < t as real + 1.0
    ensures x < 0.0 ==> t <= 0 && t as real - 1.0 < x <= t as real
  {
    if x >= 0.0 then x.Floor else -((-x).Floor)
  }

  /** A seed timestamp: the clock reading minus a random fraction of a
      day, so a moment in the day before `nowMs`. */
  function SeedTimestamp(nowMs: int, ageDraw: real): (ts: int)
    requires IsDraw(ageDraw)
    ensures nowMs - DayMs <= ts <= nowMs
  {
    var x := nowMs as real - ageDraw * 3600000.0 * 24.0;
    assert x <= nowMs as real;
    TruncateMs(x)
  }

  /** `generateAlerts`: one alert per seed coin, with ids 1 to 5. */
  function GenerateAlerts(ds: seq<SeedInput>): (r: seq<Alert>)
    requires |ds| == |SeedCoins|
    requires forall i :: 0 <= i < |ds| ==> ValidSeedInput(ds[i])
    ensures |r| == 5
    ensures forall i :: 0 <= i < 5 ==>
      && r[i].id == i + 1
      && r[i].coinSymbol == SeedCoins[i].0
      && r[i].coin == SeedCoins[i].1
      && NoDup(r[i].traders)
      && 1 <= |r[i].traders| <= 8
      && (forall n :: n in r[i].traders ==> n in SeedTraderNames)
      && ds[i].nowMs - DayMs <= r[i].timestamp <= ds[i].nowMs
  {
    seq(5, i requires 0 <= i < 5 && i < |ds| && ValidSeedInput(ds[i]) =>
      Alert(
        i + 1,
        SeedCoins[i].1,
        SeedCoins[i].0,
        DrawTraders(SeedTraderNames, 5, 4, ds[i].countDraw, ds[i].picks),
        SeedTimestamp(ds[i].nowMs, ds[i].ageDraw)))
  }

  /** The state on mount: the seed alerts and no notification. */
  function Initial(ds: seq<SeedInput>): (s: FeedState)
    requires |ds| == |SeedCoins|
    requires forall i :: 0 <= i < |ds| ==> ValidSeedInput(ds[i])
    ensures Valid(s)
    ensures |s.alerts| == 5 && s.newAlert == None && !s.showNotification
  {
    FeedState(GenerateAlerts(ds), None, false)
  }

  /** However many ticks and clears follow the mount, the history holds at
      most 20 alerts and none repeats a trader name. */
  lemma ReachableStatesValid(ds: seq<SeedInput>, evs: seq<Event>)
    requires |ds| == |SeedCoins|
    requires forall i :: 0 <= i < |ds| ==> ValidSeedInput(ds[i])
    requires ValidEvents(evs)
    ensures |Run(Initial(ds), evs).alerts| <= MaxAlerts
    ensures forall a :: a in Run(Initial(ds), evs).alerts ==> NoDup(a.traders)
  {
    RunPreservesValid(Initial(ds), evs);
  }
}
