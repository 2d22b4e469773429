/**
 The difficulty a connection is assigned: the clamp to the chain and to the port's
 promised floor, the vardiff retarget, and the miner's own request (src/stratum.c).
 */
module Difficulty {
  import opened Options

  const TWO_64: int := 0x1_0000_0000_0000_0000

  const FLOOR_MIN_SAMPLES: nat := 5
  const FLOOR_TRIGGER: real := 4.0
  const FLOOR_BACKOFF: real := 0.95

  datatype Config = Config(
    vardiff: bool, windowMs: nat, targetSpm: real, minSamples: int, maxMult: int, idleStep: real,
    maxSuggested: real)

  /** A port's policy; `floor` is what it promises, zero if nothing. */
  datatype Policy = Policy(initial: real, vardiffMin: real, vardiffMax: real, floor: real)

  /** The vardiff window; no minimum yet stands for an infinite one. */
  datatype Window = Window(start: nat, shares: nat, minAchieved: Option<real>, maxAssigned: real)

  datatype Conn = Conn(policy: Policy, difficulty: real, requested: real, authorized: bool, window: Window)

  ghost predicate Sane(cfg: Config, p: Policy) {
    cfg.windowMs > 0 && cfg.targetSpm > 0.0 && p.floor >= 0.0
  }

  /** A port with no positive starting difficulty needs a promised floor or a chain at one or above. */
  predicate Covered(p: Policy, net: real) {
    p.initial > 0.0 || p.floor > 0.0 || net >= 1.0
  }

  function Max(a: real, b: real): real {
    if a > b then a else b
  }

  // ---- the clamp -------------------------------------------------------

  /** `net` is the current job's network difficulty, zero when there is no job. */
  function Clamp(net: real, p: Policy, diff: real): real {
    var low := if net > 0.0 && diff > net then net else diff;
    var high := if p.floor > 0.0 && low < p.floor then p.floor else low;
    if high <= 0.0 then 1.0 else high
  }

  /** What a port and the chain together allow. */
  predicate InRange(net: real, p: Policy, d: real) {
    p.floor <= d <= Max(net, p.floor)
  }

  /**
   With a job set the clamp lands between the promised floor and the larger of floor
   and network difficulty, exactly when what goes in is positive, or the port
   promises a floor, or the chain is at difficulty one or more.
   */
  lemma ClampInRangeIff(net: real, p: Policy, diff: real)
    requires net > 0.0 && p.floor >= 0.0
    ensures InRange(net, p, Clamp(net, p, diff)) <==> diff > 0.0 || p.floor > 0.0 || net >= 1.0
  {
  }

  /** The clamp is stable and leaves alone whatever is already allowed. */
  lemma ClampKeeps(net: real, p: Policy, diff: real)
    requires net > 0.0 && p.floor >= 0.0 && diff > 0.0
    ensures InRange(net, p, diff) ==> Clamp(net, p, diff) == diff
    ensures Clamp(net, p, Clamp(net, p, diff)) == Clamp(net, p, diff)
  {
  }

  /**
   A difficulty clamped under one network difficulty is in range for another exactly when
   what went into the clamp is, or the one it was clamped to is no harder than allowed.
   */
  lemma ClampInRangeLaterIff(read: real, later: real, p: Policy, diff: real)
    requires read >= 0.0 && later > 0.0 && p.floor >= 0.0
    ensures InRange(later, p, Clamp(read, p, diff)) <==>
      if diff > 0.0 || p.floor > 0.0
      then diff <= Max(later, p.floor) || 0.0 < read <= Max(later, p.floor)
      else later >= 1.0
  {
  }

  // ---- the retarget ----------------------------------------------------

  function Elapsed(w: Window, now: nat): nat {
    (now - w.start) % TWO_64
  }

  predicate TooFew(cfg: Config, w: Window) {
    cfg.minSamples > 0 && w.shares < cfg.minSamples
  }

  /** Whether the window is over: long enough, and full enough or stretched to its limit. */
  predicate Due(cfg: Config, w: Window, now: nat) {
    var mult := if cfg.maxMult > 0 then cfg.maxMult else 8;
    && Elapsed(w, now) >= cfg.windowMs
    && (TooFew(cfg, w) ==> Elapsed(w, now) >= cfg.windowMs * mult)
  }

  /** Observed over wanted share rate. */
  function Ratio(cfg: Config, w: Window, now: nat): real
    requires Elapsed(w, now) > 0 && cfg.targetSpm > 0.0
  {
    w.shares as real * 60000.0 / Elapsed(w, now) as real / cfg.targetSpm
  }

  function Step(cfg: Config, w: Window): (r: real)
    ensures r > 1.0
  {
    if !TooFew(cfg, w) then 4.0 else if cfg.idleStep > 1.0 then cfg.idleStep else 2.0
  }

  /** The rate loop: nothing inside the deadband, else a capped proportional step. */
  function Rated(before: real, ratio: real, step: real): real
    requires step > 1.0
  {
    if 0.5 <= ratio <= 2.0 then before
    else
      var up := if before * ratio > before * step then before * step else before * ratio;
      if up < before / step then before / step else up
  }

  lemma RatedIsCapped(before: real, ratio: real, step: real)
    requires before > 0.0 && step > 1.0
    ensures 0.0 < before / step <= Rated(before, ratio, step) <= before * step
  {
    DivideMultiply(before, step);
  }

  lemma DivideMultiply(x: real, s: real)
    requires x > 0.0 && s > 1.0
    ensures 0.0 < x / s < x < x * s
  {
    var q := x / s;
    assert q * s == x;
    assert q > 0.0;
    assert q * s == q + q * (s - 1.0);
    assert q * (s - 1.0) > 0.0 && x * (s - 1.0) > 0.0;
    assert x * s == x + x * (s - 1.0);
  }

  /** The miner filters at a floor of its own: every share of the window was far above its target. */
  function OwnFloor(w: Window, before: real): Option<real> {
    if w.shares >= FLOOR_MIN_SAMPLES && w.minAchieved.Some?
       && w.minAchieved.value > Max(w.maxAssigned, before) * FLOOR_TRIGGER
    then Some(w.minAchieved.value * FLOOR_BACKOFF) else None
  }

  /** The request and the port's vardiff bounds. */
  function Bounded(p: Policy, requested: real, diff: real): real {
    var asked := if requested > 0.0 && diff < requested then requested else diff;
    var low := if asked < p.vardiffMin then p.vardiffMin else asked;
    if p.vardiffMax > 0.0 && low > p.vardiffMax then p.vardiffMax else low
  }

  function Proposal(cfg: Config, c: Conn, now: nat): real
    requires Elapsed(c.window, now) > 0 && cfg.targetSpm > 0.0
  {
    var rated := Rated(c.difficulty, Ratio(cfg, c.window, now), Step(cfg, c.window));
    var own := OwnFloor(c.window, c.difficulty);
    if own.Some? && own.value > rated then own.value else rated
  }

  function Opened(now: nat): Window {
    Window(now, 0, None, 0.0)
  }

  /** The connection after a retarget; the miner is told when the difficulty changed. */
  function Retargeted(cfg: Config, net: real, c: Conn, now: nat): Conn
    requires cfg.windowMs > 0 && cfg.targetSpm > 0.0
  {
    if !cfg.vardiff then c
    else if c.window.start == 0 then c.(window := Opened(now))
    else if !Due(cfg, c.window, now) then c
    else
      c.(difficulty := Clamp(net, c.policy, Bounded(c.policy, c.requested, Proposal(cfg, c, now))),
         window := Opened(now))
  }

  /** What a retarget puts into the clamp. */
  function Aimed(cfg: Config, c: Conn, now: nat): real
    requires cfg.windowMs > 0 && cfg.targetSpm > 0.0
  {
    if cfg.vardiff && c.window.start != 0 && Due(cfg, c.window, now)
    then Bounded(c.policy, c.requested, Proposal(cfg, c, now)) else c.difficulty
  }

  function Counted(w: Window, achieved: real, mined: real): Window {
    w.(shares := w.shares + 1,
       minAchieved := if w.minAchieved.None? || achieved < w.minAchieved.value then Some(achieved) else w.minAchieved,
       maxAssigned := Max(mined, w.maxAssigned))
  }

  lemma BoundedIsPositive(p: Policy, requested: real, diff: real)
    requires diff > 0.0
    ensures Bounded(p, requested, diff) > 0.0
  {
  }

  /** What goes into the clamp is positive. */
  lemma ProposalIsPositive(cfg: Config, c: Conn, now: nat)
    requires Elapsed(c.window, now) > 0 && cfg.targetSpm > 0.0 && c.difficulty > 0.0
    ensures Proposal(cfg, c, now) > 0.0
  {
    hide Rated, Ratio, Elapsed;
    RatedIsCapped(c.difficulty, Ratio(cfg, c.window, now), Step(cfg, c.window));
  }

  /**
   A retarget moves the difficulty, before bounds, by at most the window's step, unless
   the miner's own floor was measured; and then it lands just under that floor.
   */
  lemma ProposalIsCapped(cfg: Config, c: Conn, now: nat)
    requires Elapsed(c.window, now) > 0 && cfg.targetSpm > 0.0 && c.difficulty > 0.0
    ensures c.difficulty / Step(cfg, c.window) <= Proposal(cfg, c, now)
    ensures Proposal(cfg, c, now) <= c.difficulty * Step(cfg, c.window)
      || OwnFloor(c.window, c.difficulty) == Some(Proposal(cfg, c, now))
  {
    hide Rated, Ratio, Elapsed, Step;
    RatedIsCapped(c.difficulty, Ratio(cfg, c.window, now), Step(cfg, c.window));
  }

  /** A miner's request survives every retarget, short of the port's and the chain's ceilings. */
  lemma RequestIsHonoured(cfg: Config, net: real, c: Conn, now: nat)
    requires cfg.vardiff && cfg.windowMs > 0 && cfg.targetSpm > 0.0 && c.difficulty > 0.0
    requires c.window.start != 0 && Due(cfg, c.window, now) && c.requested > 0.0
    ensures var d := Retargeted(cfg, net, c, now).difficulty;
      || d >= c.requested
      || (c.policy.vardiffMax > 0.0 && d >= c.policy.vardiffMax)
      || (net > 0.0 && d >= net)
  {
    hide Proposal, Elapsed;
  }

  // ---- requests and authorize ------------------------------------------

  /** The request, cut to the pool's cap, the chain, the floor and the port's vardiff ceiling. */
  function Requested(cfg: Config, net: real, c: Conn, req: real): Conn {
    if req <= 0.0 || cfg.maxSuggested <= 0.0 then c
    else
      var capped := Clamp(net, c.policy, if req > cfg.maxSuggested then cfg.maxSuggested else req);
      var r := if c.policy.vardiffMax > 0.0 && capped > c.policy.vardiffMax then c.policy.vardiffMax else capped;
      c.(requested := r, difficulty := if c.difficulty < r then r else c.difficulty)
  }

  /** A request cut to the pool's cap and the port's vardiff ceiling. */
  function CutRequest(cfg: Config, p: Policy, req: real): real {
    var capped := if req > cfg.maxSuggested then cfg.maxSuggested else req;
    if p.vardiffMax > 0.0 && capped > p.vardiffMax then p.vardiffMax else capped
  }

  function Seeded(c: Conn): Conn {
    c.(authorized := true, difficulty := if c.difficulty <= 0.0 then c.policy.initial else c.difficulty)
  }

  /** The connection with its request applied, before the final clamp. */
  function Asked(cfg: Config, earlier: real, c: Conn, pwDiff: real): Conn {
    Requested(cfg, earlier, Seeded(c), if pwDiff > 0.0 then pwDiff else c.requested)
  }

  /** The request and the final clamp each read the network difficulty; `earlier` is the first reading. */
  function Authorized(cfg: Config, earlier: real, net: real, c: Conn, pwDiff: real, now: nat): Conn {
    var asked := Asked(cfg, earlier, c, pwDiff);
    asked.(difficulty := Clamp(net, c.policy, asked.difficulty), window := Opened(now))
  }

  // ---- whole connections -----------------------------------------------

  /** A difficulty on its way to the miner, what went into the clamp, and the network difficulty the clamp read. */
  datatype Message = Message(value: real, input: real, read: real)

  /** A mining.set_difficulty on the wire, and the network difficulty when it went out. */
  datatype Sent = Sent(message: Message, net: real)

  datatype World = World(conn: Conn, net: real, pending: Option<Message>, sent: seq<Sent>)

  /** The connection's own thread handles one message at a time; jobs are swapped by another thread, at any point. */
  datatype Event =
    | NewJob(net: real)
    | Authorize(earlier: real, pwDiff: real, now: nat)
    | Suggest(req: real)
    | Share(achieved: real, mined: real, now: nat)
    | Send

  function Tell(w: World, c: Conn, input: real, always: bool): World {
    if always || c.difficulty != w.conn.difficulty
    then w.(conn := c, pending := Some(Message(c.difficulty, input, w.net)))
    else w.(conn := c)
  }

  function Next(cfg: Config, w: World, e: Event): World
    requires cfg.windowMs > 0 && cfg.targetSpm > 0.0
  {
    match e
    case NewJob(net) => if net > 0.0 then w.(net := net) else w
    case Send =>
      if w.pending.None? then w
      else w.(pending := None, sent := w.sent + [Sent(w.pending.value, w.net)])
    case Authorize(earlier, pwDiff, now) =>
      if w.pending.Some? || earlier < 0.0 then w
      else
        Tell(w, Authorized(cfg, earlier, w.net, w.conn, pwDiff, now),
             Asked(cfg, earlier, w.conn, pwDiff).difficulty, true)
    case Suggest(req) =>
      var c := Requested(cfg, w.net, w.conn, req);
      if w.pending.Some? then w
      else if w.conn.authorized then Tell(w, c, CutRequest(cfg, w.conn.policy, req), false)
      else w.(conn := c)
    case Share(achieved, mined, now) =>
      if w.pending.Some? || !w.conn.authorized then w
      else
        var c := w.conn.(window := Counted(w.conn.window, achieved, mined));
        Tell(w, Retargeted(cfg, w.net, c, now), Aimed(cfg, c, now), false)
  }

  function Accepted(p: Policy): World {
    World(Conn(p, p.initial, 0.0, false, Window(0, 0, None, 0.0)), 0.0, None, [])
  }

  function After(cfg: Config, p: Policy, events: seq<Event>): World
    requires cfg.windowMs > 0 && cfg.targetSpm > 0.0
  {
    if events == [] then Accepted(p)
    else Next(cfg, After(cfg, p, events[..|events| - 1]), events[|events| - 1])
  }

  /** The message carries the clamp of its input, and on a covered port that is in range for what the clamp read. */
  ghost predicate MessageOk(p: Policy, m: Message) {
    && m.value == Clamp(m.read, p, m.input) && m.read >= 0.0
    && (p.initial > 0.0 ==> m.input > 0.0)
  }

  /** An authorized miner holds, or is about to be told, the difficulty the pool assigns it, at least the floor. */
  ghost predicate Inv(p: Policy, w: World) {
    && w.conn.policy == p && w.net >= 0.0
    && (p.initial > 0.0 || w.conn.authorized ==> w.conn.difficulty > 0.0)
    && (forall i :: 0 <= i < |w.sent| ==> MessageOk(p, w.sent[i].message))
    && (w.pending.Some? ==>
          w.conn.authorized && MessageOk(p, w.pending.value) && w.pending.value.value == w.conn.difficulty)
    && (w.conn.authorized ==> w.conn.difficulty >= p.floor)
    && (w.conn.authorized && w.pending.None? ==>
          w.sent != [] && w.sent[|w.sent| - 1].message.value == w.conn.difficulty)
  }

  lemma ClampIs(net: real, p: Policy, diff: real)
    requires net >= 0.0 && p.floor >= 0.0
    ensures Clamp(net, p, diff) > 0.0 && Clamp(net, p, diff) >= p.floor
    ensures net > 0.0 && (diff > 0.0 || p.floor > 0.0 || net >= 1.0) ==> InRange(net, p, Clamp(net, p, diff))
  {
  }

  /** A request that raises the difficulty of a connection at or above its floor is the clamp of the request, cut. */
  lemma RequestedIs(cfg: Config, net: real, c: Conn, req: real)
    requires net >= 0.0 && c.policy.floor >= 0.0
    ensures var c' := Requested(cfg, net, c, req);
      && c'.policy == c.policy && c'.authorized == c.authorized
      && c'.difficulty >= c.difficulty
      && (c.difficulty >= c.policy.floor && c'.difficulty != c.difficulty ==>
            && CutRequest(cfg, c.policy, req) > 0.0
            && c'.difficulty == Clamp(net, c.policy, CutRequest(cfg, c.policy, req)))
  {
  }

  lemma RetargetedIs(cfg: Config, net: real, c: Conn, now: nat)
    requires cfg.windowMs > 0 && cfg.targetSpm > 0.0
    requires net >= 0.0 && c.policy.floor >= 0.0 && c.difficulty > 0.0
    ensures var c' := Retargeted(cfg, net, c, now);
      && c'.policy == c.policy && c'.authorized == c.authorized && c'.difficulty > 0.0
      && (c'.difficulty != c.difficulty ==>
            && c'.difficulty >= c.policy.floor
            && Aimed(cfg, c, now) > 0.0 && c'.difficulty == Clamp(net, c.policy, Aimed(cfg, c, now)))
  {
    if cfg.vardiff && c.window.start != 0 && Due(cfg, c.window, now) {
      ProposalIsPositive(cfg, c, now);
      BoundedIsPositive(c.policy, c.requested, Proposal(cfg, c, now));
      ClampIs(net, c.policy, Bounded(c.policy, c.requested, Proposal(cfg, c, now)));
      hide Proposal, Bounded, Clamp, Elapsed;
    }
  }

  lemma StepKeepsInv(cfg: Config, p: Policy, w: World, e: Event)
    requires Sane(cfg, p) && Inv(p, w)
    ensures Inv(p, Next(cfg, w, e))
  {
    hide Clamp, Requested, Retargeted, Counted;
    match e {
      case NewJob(_) =>
      case Send =>
      case Authorize(earlier, pwDiff, now) =>
        if earlier >= 0.0 {
          RequestedIs(cfg, earlier, Seeded(w.conn), if pwDiff > 0.0 then pwDiff else w.conn.requested);
          ClampIs(w.net, p, Asked(cfg, earlier, w.conn, pwDiff).difficulty);
        }
      case Suggest(req) => RequestedIs(cfg, w.net, w.conn, req);
      case Share(achieved, mined, now) =>
        if w.conn.authorized {
          RetargetedIs(cfg, w.net, w.conn.(window := Counted(w.conn.window, achieved, mined)), now);
        }
    }
  }

  lemma {:induction false} RunKeepsInv(cfg: Config, p: Policy, events: seq<Event>)
    requires Sane(cfg, p)
    ensures Inv(p, After(cfg, p, events))
  {
    if events != [] {
      RunKeepsInv(cfg, p, events[..|events| - 1]);
      StepKeepsInv(cfg, p, After(cfg, p, events[..|events| - 1]), events[|events| - 1]);
      hide Inv, Next;
    }
  }

  /**
   Over every run of jobs, authorizes, requests and shares, with jobs swapped at any
   point, every difficulty clamped while a job is set lies between the port's promised
   floor and the larger of that floor and the network difficulty it was clamped to,
   provided the port starts at a positive difficulty, promises a floor, or the chain is
   at difficulty one or more.
   */
  lemma EveryDifficultySentIsInRange(cfg: Config, p: Policy, events: seq<Event>, i: nat)
    requires Sane(cfg, p) && i < |After(cfg, p, events).sent|
    requires var m := After(cfg, p, events).sent[i].message; m.read > 0.0 && Covered(p, m.read)
    ensures var m := After(cfg, p, events).sent[i].message; InRange(m.read, p, m.value)
  {
    RunKeepsInv(cfg, p, events);
    hide After;
    var m := After(cfg, p, events).sent[i].message;
    ClampIs(m.read, p, m.input);
  }

  /**
   For the network difficulty in force when it goes out, that is so exactly when what went
   into the clamp is allowed by then, or the network difficulty it was clamped to is.
   */
  lemma InRangeWhenSentIff(cfg: Config, p: Policy, events: seq<Event>, i: nat)
    requires Sane(cfg, p) && i < |After(cfg, p, events).sent| && After(cfg, p, events).sent[i].net > 0.0
    ensures var s := After(cfg, p, events).sent[i];
      var m, top := s.message, Max(s.net, p.floor);
      InRange(s.net, p, m.value) <==>
        if m.input > 0.0 || p.floor > 0.0 then m.input <= top || 0.0 < m.read <= top else s.net >= 1.0
  {
    RunKeepsInv(cfg, p, events);
    hide After;
    var s := After(cfg, p, events).sent[i];
    ClampInRangeLaterIff(s.message.read, s.net, p, s.message.input);
  }

  lemma AfterStep(cfg: Config, p: Policy, events: seq<Event>, e: Event)
    requires cfg.windowMs > 0 && cfg.targetSpm > 0.0
    ensures After(cfg, p, events + [e]) == Next(cfg, After(cfg, p, events), e)
  {
    assert (events + [e])[..|events|] == events;
  }

  /** A miner without a request authorizes, and `swapped` is the network difficulty by the time it is told. */
  function FirstTold(net: real, now: nat, swapped: real): seq<Event> {
    [] + [NewJob(net)] + [Authorize(net, 0.0, now)] + [NewJob(swapped)] + [Send]
  }

  lemma FirstToldIs(cfg: Config, p: Policy, net: real, now: nat, swapped: real)
    requires Sane(cfg, p) && net > 0.0 && swapped > 0.0
    ensures After(cfg, p, FirstTold(net, now, swapped)).sent
      == [Sent(Message(Clamp(net, p, p.initial), p.initial, net), swapped)]
  {
    hide After, Clamp;
    assert After(cfg, p, []) == Accepted(p) by { AfterNothing(cfg, p); }
    AfterStep(cfg, p, [], NewJob(net));
    AfterStep(cfg, p, [] + [NewJob(net)], Authorize(net, 0.0, now));
    AfterStep(cfg, p, [] + [NewJob(net)] + [Authorize(net, 0.0, now)], NewJob(swapped));
    AfterStep(cfg, p, [] + [NewJob(net)] + [Authorize(net, 0.0, now)] + [NewJob(swapped)], Send);
  }

  lemma AfterNothing(cfg: Config, p: Policy)
    requires cfg.windowMs > 0 && cfg.targetSpm > 0.0
    ensures After(cfg, p, []) == Accepted(p)
  {
  }

  /** The proviso is exact: it decides the first difficulty a miner without a request is sent. */
  lemma FirstDifficultyInRangeIff(cfg: Config, p: Policy, net: real, now: nat)
    requires Sane(cfg, p) && net > 0.0
    ensures var sent := After(cfg, p, FirstTold(net, now, net)).sent;
      && |sent| == 1 && sent[0].net == net
      && (InRange(net, p, sent[0].message.value) <==> Covered(p, net))
  {
    hide After;
    FirstToldIs(cfg, p, net, now, net);
    ClampInRangeIff(net, p, p.initial);
  }

  /** A job swapped in between matters exactly when it is easier than both the port's start and the job before it. */
  lemma FirstDifficultyAfterSwapIff(cfg: Config, p: Policy, net: real, now: nat, swapped: real)
    requires Sane(cfg, p) && p.initial > 0.0 && net > 0.0 && swapped > 0.0
    ensures var sent := After(cfg, p, FirstTold(net, now, swapped)).sent;
      var top := Max(swapped, p.floor);
      && |sent| == 1 && sent[0].net == swapped
      && (InRange(swapped, p, sent[0].message.value) <==> p.initial <= top || net <= top)
  {
    hide After;
    FirstToldIs(cfg, p, net, now, swapped);
    ClampInRangeLaterIff(net, swapped, p, p.initial);
  }

  /** A port starting at 5 on a chain at 10, with a job at 1 swapped in: the miner is told 5. */
  lemma SwapBeforeSendOvershoots(cfg: Config, now: nat)
    requires cfg.windowMs > 0 && cfg.targetSpm > 0.0
    ensures var p := Policy(5.0, 1.0, 0.0, 0.0);
      var sent := After(cfg, p, FirstTold(10.0, now, 1.0)).sent;
      |sent| == 1 && sent[0].net == 1.0 && sent[0].message.value == 5.0 && !InRange(1.0, p, sent[0].message.value)
  {
    hide After;
    FirstToldIs(cfg, Policy(5.0, 1.0, 0.0, 0.0), 10.0, now, 1.0);
  }

  /** Between messages, the last difficulty an authorized miner was sent is the one the pool holds for it. */
  lemma MinerAndPoolAgree(cfg: Config, p: Policy, events: seq<Event>)
    requires Sane(cfg, p) && After(cfg, p, events).conn.authorized && After(cfg, p, events).pending.None?
    ensures var w := After(cfg, p, events);
      w.sent != [] && w.sent[|w.sent| - 1].message.value == w.conn.difficulty >= p.floor
  {
    RunKeepsInv(cfg, p, events);
    hide After;
  }

  // ---- the connection in place -----------------------------------------

  method RateStep(before: real, ratio: real, step: real) returns (next: real)
    requires step > 1.0
    ensures next == Rated(before, ratio, step)
  {
    next := before;
    if ratio > 2.0 || ratio < 0.5 {
      next := before * ratio;
      if next > before * step { next := before * step; }
      if next < before / step { next := before / step; }
    }
  }

  class Connection {
    const policy: Policy
    const cfg: Config
    var difficulty: real
    var requested: real
    var authorized: bool
    var window: Window

    ghost function View(): Conn
      reads this
    {
      Conn(policy, difficulty, requested, authorized, window)
    }

    constructor (cfg: Config, policy: Policy)
      ensures this.cfg == cfg && View() == Accepted(policy).conn
    {
      this.cfg, this.policy := cfg, policy;
      difficulty, requested, authorized := policy.initial, 0.0, false;
      window := Window(0, 0, None, 0.0);
    }

    method Retarget(net: real, now: nat) returns (sent: Option<real>)
      requires cfg.windowMs > 0 && cfg.targetSpm > 0.0
      modifies this`difficulty, this`window
      ensures View() == Retargeted(cfg, net, old(View()), now)
      ensures sent == if difficulty == old(difficulty) then None else Some(difficulty)
    {
      hide Ratio, Rated, Elapsed, Clamp;
      sent := None;
      if !cfg.vardiff { return; }
      if window.start == 0 {
        window := Opened(now);
        return;
      }
      var elapsed := Elapsed(window, now);
      if elapsed < cfg.windowMs { return; }
      var few := cfg.minSamples > 0 && window.shares < cfg.minSamples;
      if few {
        var mult := if cfg.maxMult > 0 then cfg.maxMult else 8;
        if elapsed < cfg.windowMs * mult { return; }
      }
      var step := 4.0;
      if few { step := if cfg.idleStep > 1.0 then cfg.idleStep else 2.0; }
      var next := RateStep(difficulty, Ratio(cfg, window, now), step);
      var basis := if window.maxAssigned > difficulty then window.maxAssigned else difficulty;
      if window.shares >= FLOOR_MIN_SAMPLES && window.minAchieved.Some?
         && window.minAchieved.value > basis * FLOOR_TRIGGER
      {
        var own := window.minAchieved.value * FLOOR_BACKOFF;
        if own > next { next := own; }
      }
      assert next == Proposal(cfg, View(), now);
      if requested > 0.0 && next < requested { next := requested; }
      if next < policy.vardiffMin { next := policy.vardiffMin; }
      if policy.vardiffMax > 0.0 && next > policy.vardiffMax { next := policy.vardiffMax; }
      next := Clamp(net, policy, next);
      window := Opened(now);
      if next != difficulty {
        difficulty := next;
        sent := Some(next);
      }
    }

    method ApplyRequest(net: real, req: real)
      modifies this`difficulty, this`requested
      ensures View() == Requested(cfg, net, old(View()), req)
    {
      if req <= 0.0 || cfg.maxSuggested <= 0.0 { return; }
      var r := Clamp(net, policy, if req > cfg.maxSuggested then cfg.maxSuggested else req);
      if policy.vardiffMax > 0.0 && r > policy.vardiffMax { r := policy.vardiffMax; }
      requested := r;
      if difficulty < r { difficulty := r; }
    }

    method HandleSuggest(net: real, req: real) returns (sent: Option<real>)
      modifies this`difficulty, this`requested
      ensures View() == Requested(cfg, net, old(View()), req)
      ensures sent == if authorized && difficulty != old(difficulty) then Some(difficulty) else None
    {
      var before := difficulty;
      ApplyRequest(net, req);
      sent := if authorized && difficulty != before then Some(difficulty) else None;
    }

    method HandleAuthorize(earlier: real, net: real, pwDiff: real, now: nat) returns (sent: real)
      modifies this`difficulty, this`requested, this`authorized, this`window
      ensures View() == Authorized(cfg, earlier, net, old(View()), pwDiff, now) && sent == difficulty
    {
      authorized := true;
      if difficulty <= 0.0 { difficulty := policy.initial; }
      ApplyRequest(earlier, if pwDiff > 0.0 then pwDiff else requested);
      difficulty := Clamp(net, policy, difficulty);
      window := Opened(now);
      sent := difficulty;
    }
  }
}
