/**
 What assigning a difficulty comes to, rule by rule: the clamp, the retarget, a miner's
 request and an authorize, each against the numbers the configuration and the window
 hold, without the quotients the code goes through (src/stratum.c).
 */
module DifficultyRules {
  import opened Options
  import opened Sums
  import opened Difficulty

  function Min(a: real, b: real): real {
    if a < b then a else b
  }

  // ---- the clamp -----------------------------------------------------------

  /** The promised floor wins over the chain, the chain over the proposal; anything else stays. */
  lemma ClampIs(net: real, p: Policy, diff: real)
    requires net >= 0.0 && p.floor >= 0.0 && diff > 0.0
    ensures var d := Clamp(net, p, diff);
      if diff < p.floor || 0.0 < net < p.floor then d == p.floor
      else if 0.0 < net < diff then d == net
      else d == diff
  {
  }

  /** Nothing proposed: the floor, or one. */
  lemma ClampOfNothing(net: real, p: Policy, diff: real)
    requires net >= 0.0 && p.floor >= 0.0 && diff <= 0.0
    ensures Clamp(net, p, diff) == if p.floor > 0.0 then p.floor else 1.0
  {
  }

  // ---- when a window is over --------------------------------------------------

  /** Long enough; and with too few shares, stretched to its limit, eight windows unless configured. */
  lemma DueIff(cfg: Config, w: Window, now: nat)
    requires w.start <= now < w.start + 0x1_0000_0000_0000_0000
    ensures var elapsed, few := now - w.start, cfg.minSamples > 0 && w.shares < cfg.minSamples;
      Due(cfg, w, now) <==>
        elapsed >= cfg.windowMs && (few ==> elapsed >= cfg.windowMs * if cfg.maxMult > 0 then cfg.maxMult else 8)
  {
    ElapsedIs(w, now);
    hide Elapsed;
  }

  lemma ElapsedIs(w: Window, now: nat)
    requires w.start <= now < w.start + 0x1_0000_0000_0000_0000
    ensures Elapsed(w, now) == now - w.start
  {
  }

  /** A reading from before the window opened is taken for one long after it. */
  lemma ElapsedWraps(w: Window, now: nat)
    requires now < w.start <= now + 0x1_0000_0000_0000_0000
    ensures Elapsed(w, now) == 0x1_0000_0000_0000_0000 - (w.start - now)
  {
    assert (now - w.start) % TWO_64 == now - w.start + TWO_64;
  }

  // ---- the rate loop -----------------------------------------------------------

  /**
   `seen` shares against `wanted`, both per minute and times the window's length: within a
   factor of two nothing moves; beyond it the difficulty moves in proportion, up to `step`.
   */
  predicate IsRated(rated: real, before: real, seen: real, wanted: real, step: real) {
    if wanted <= 2.0 * seen && seen <= 2.0 * wanted then rated == before
    else if seen > 2.0 * wanted then
      if seen >= Times(step, wanted) then rated == Times(before, step) else Times(rated, wanted) == Times(before, seen)
    else
      if Times(step, seen) <= wanted then Times(rated, step) == before else Times(rated, wanted) == Times(before, seen)
  }

  lemma RatioIs(cfg: Config, w: Window, now: nat)
    requires Elapsed(w, now) > 0 && cfg.targetSpm > 0.0
    ensures Times(Ratio(cfg, w, now), Times(cfg.targetSpm, Elapsed(w, now) as real)) == w.shares as real * 60000.0
  {
    hide Elapsed;
    Quotients(w.shares as real * 60000.0, Elapsed(w, now) as real, cfg.targetSpm);
  }

  lemma Quotients(x: real, e: real, t: real)
    requires e > 0.0 && t > 0.0
    ensures Times(x / e / t, Times(t, e)) == x
  {
    var a := x / e;
    var b := a / t;
    assert b * t == a && a * e == x;
    assert b * (t * e) == b * t * e;
  }

  lemma ScaleOrder(a: real, b: real, w: real)
    requires w > 0.0
    ensures a <= b <==> Times(a, w) <= Times(b, w)
  {
    if a <= b {
      assert (b - a) * w >= 0.0;
    } else {
      assert (a - b) * w > 0.0;
    }
  }

  lemma Scalings(before: real, ratio: real, step: real, wanted: real, seen: real)
    requires wanted > 0.0 && step > 1.0 && before > 0.0 && Times(ratio, wanted) == seen
    ensures ratio <= 2.0 <==> seen <= 2.0 * wanted
    ensures 0.5 <= ratio <==> wanted <= 2.0 * seen
    ensures ratio >= step <==> seen >= Times(step, wanted)
    ensures Times(step, ratio) <= 1.0 <==> Times(step, seen) <= wanted
    ensures Times(Times(before, ratio), wanted) == Times(before, seen)
  {
    ScaleOrder(ratio, 2.0, wanted);
    ScaleOrder(0.5, ratio, wanted);
    ScaleOrder(step, ratio, wanted);
    ScaleOrder(step * ratio, 1.0, wanted);
    assert step * ratio * wanted == step * (ratio * wanted);
    assert before * ratio * wanted == before * (ratio * wanted);
  }

  /** The capped proportional step, in terms of the ratio. */
  lemma RatedByRatio(before: real, ratio: real, step: real)
    requires before > 0.0 && step > 1.0
    ensures var r := Rated(before, ratio, step);
      if 0.5 <= ratio <= 2.0 then r == before
      else if ratio > 2.0 then if ratio >= step then r == Times(before, step) else r == Times(before, ratio)
      else if Times(step, ratio) <= 1.0 then Times(r, step) == before else r == Times(before, ratio)
  {
    DivideMultiply(before, step);
    assert (before / step) * step == before;
    ScaleOrder(ratio, step, before);
    ScaleOrder(before * ratio, before / step, step);
    assert before * ratio * step == before * (step * ratio);
    ScaleOrder(step * ratio, 1.0, before);
  }

  /** A full window may move the difficulty fourfold, a starved one by the idle step, twofold unless configured. */
  function StepOf(cfg: Config, shares: nat): (step: real)
    ensures step > 1.0
  {
    if !(cfg.minSamples > 0 && shares < cfg.minSamples) then 4.0 else if cfg.idleStep > 1.0 then cfg.idleStep else 2.0
  }

  lemma RatedIs(cfg: Config, c: Conn, now: nat)
    requires Elapsed(c.window, now) > 0 && cfg.targetSpm > 0.0 && c.difficulty > 0.0
    ensures IsRated(Rated(c.difficulty, Ratio(cfg, c.window, now), Step(cfg, c.window)), c.difficulty,
                    c.window.shares as real * 60000.0, Times(cfg.targetSpm, Elapsed(c.window, now) as real),
                    StepOf(cfg, c.window.shares))
  {
    hide Ratio, Rated, Elapsed;
    var ratio, step := Ratio(cfg, c.window, now), StepOf(cfg, c.window.shares);
    var wanted, seen := Times(cfg.targetSpm, Elapsed(c.window, now) as real), c.window.shares as real * 60000.0;
    assert wanted > 0.0 by { Product(cfg.targetSpm, Elapsed(c.window, now) as real); }
    RatioIs(cfg, c.window, now);
    hide Times;
    Scalings(c.difficulty, ratio, step, wanted, seen);
    RatedByRatio(c.difficulty, ratio, step);
  }

  lemma Product(x: real, y: real)
    requires x > 0.0 && y > 0.0
    ensures Times(x, y) > 0.0
  {
  }

  // ---- a retarget ------------------------------------------------------------------

  /** At least five shares, every one of them at more than four times what was assigned. */
  predicate FiltersAbove(w: Window, before: real) {
    w.shares >= 5 && w.minAchieved.Some? && w.minAchieved.value > Max(w.maxAssigned, before) * 4.0
  }

  /** The rate loop's answer, lifted to just under the miner's own floor if one was measured. */
  predicate IsProposal(proposed: real, rated: real, w: Window, before: real) {
    proposed == if FiltersAbove(w, before) then Max(w.minAchieved.value * 0.95, rated) else rated
  }

  /** At least the miner's request and the port's minimum, at most the port's maximum if it has one. */
  function Within(p: Policy, requested: real, diff: real): real {
    var low := Max(Max(requested, p.vardiffMin), diff);
    if p.vardiffMax > 0.0 then Min(low, p.vardiffMax) else low
  }

  lemma BoundedIs(p: Policy, requested: real, diff: real)
    requires diff > 0.0 && requested >= 0.0
    ensures Bounded(p, requested, diff) == Within(p, requested, diff)
  {
  }

  /** A fresh window: no shares, no minimum, nothing assigned yet. */
  predicate IsFresh(w: Window, now: nat) {
    w.start == now && w.shares == 0 && w.minAchieved.None? && w.maxAssigned == 0.0
  }

  /** What a retarget owes: `rated` by the rate loop, lifted, kept within bounds and clamped. */
  ghost predicate IsRetarget(cfg: Config, net: real, c: Conn, now: nat, c': Conn, rated: real, proposed: real) {
    && c' == c.(difficulty := c'.difficulty, window := c'.window) && IsFresh(c'.window, now)
    && IsRated(rated, c.difficulty, c.window.shares as real * 60000.0,
               Times(cfg.targetSpm, Elapsed(c.window, now) as real), StepOf(cfg, c.window.shares))
    && IsProposal(proposed, rated, c.window, c.difficulty)
    && c'.difficulty == Clamp(net, c.policy, Within(c.policy, c.requested, proposed))
  }

  /**
   A window that is over retargets by that rule and starts again; an unopened one is opened;
   otherwise, and with vardiff off, nothing changes.
   */
  lemma RetargetIs(cfg: Config, net: real, c: Conn, now: nat)
    requires cfg.windowMs > 0 && cfg.targetSpm > 0.0 && c.difficulty > 0.0 && c.requested >= 0.0
    ensures var c' := Retargeted(cfg, net, c, now);
      if !cfg.vardiff then c' == c
      else if c.window.start == 0 then c' == c.(window := c'.window) && IsFresh(c'.window, now)
      else if !Due(cfg, c.window, now) then c' == c
      else exists rated: real, proposed: real :: IsRetarget(cfg, net, c, now, c', rated, proposed)
  {
    if cfg.vardiff && c.window.start != 0 && Due(cfg, c.window, now) {
      var rated := Rated(c.difficulty, Ratio(cfg, c.window, now), Step(cfg, c.window));
      var proposed := Proposal(cfg, c, now);
      RatedIs(cfg, c, now);
      ProposalIsPositive(cfg, c, now);
      BoundedIs(c.policy, c.requested, proposed);
      ProposalIs(cfg, c, now);
      hide Rated, Ratio, Step, Elapsed, Clamp, IsRated, Proposal, IsProposal, Bounded, Within;
      assert IsRetarget(cfg, net, c, now, Retargeted(cfg, net, c, now), rated, proposed);
    }
  }

  lemma ProposalIs(cfg: Config, c: Conn, now: nat)
    requires Elapsed(c.window, now) > 0 && cfg.targetSpm > 0.0
    ensures IsProposal(Proposal(cfg, c, now), Rated(c.difficulty, Ratio(cfg, c.window, now), Step(cfg, c.window)),
                       c.window, c.difficulty)
  {
    hide Rated, Ratio, Step, Elapsed;
  }

  // ---- requests, authorize, shares ------------------------------------------------

  /**
   A request is cut to the pool's limit, clamped, and cut to the port's maximum; it becomes
   the connection's floor and raises its difficulty, never lowers it. With requests off, or
   none made, nothing changes.
   */
  lemma RequestIs(cfg: Config, net: real, c: Conn, req: real)
    ensures var c' := Requested(cfg, net, c, req);
      if req <= 0.0 || cfg.maxSuggested <= 0.0 then c' == c
      else
        var clamped := Clamp(net, c.policy, Min(req, cfg.maxSuggested));
        var floor := if c.policy.vardiffMax > 0.0 then Min(clamped, c.policy.vardiffMax) else clamped;
        c' == c.(requested := floor, difficulty := Max(c.difficulty, floor))
  {
    hide Clamp;
  }

  /**
   An authorize starts from the difficulty held, or the port's own, takes the request in the
   password or else the one made before, clamps, and opens a fresh window.
   */
  lemma AuthorizeIs(cfg: Config, earlier: real, net: real, c: Conn, pwDiff: real, now: nat)
    ensures var seeded := c.(authorized := true,
                             difficulty := if c.difficulty > 0.0 then c.difficulty else c.policy.initial);
      var asked := Requested(cfg, earlier, seeded, if pwDiff > 0.0 then pwDiff else c.requested);
      var c' := Authorized(cfg, earlier, net, c, pwDiff, now);
      && c' == asked.(difficulty := Clamp(net, c.policy, asked.difficulty), window := c'.window)
      && c'.authorized && IsFresh(c'.window, now)
  {
    hide Clamp;
  }

  /** A share adds one, and widens what the window achieved and was assigned. */
  lemma CountedIs(w: Window, achieved: real, mined: real)
    ensures var w' := Counted(w, achieved, mined);
      && w'.start == w.start && w'.shares == w.shares + 1
      && w'.minAchieved == Some(if w.minAchieved.Some? then Min(achieved, w.minAchieved.value) else achieved)
      && w'.maxAssigned == Max(w.maxAssigned, mined)
  {
  }

  /**
   Between messages: a share is counted and may end its window, a request is applied, an
   authorize is carried out, each against the chain as it stands; the miner is told of every
   authorize and, once authorized, of every change.
   */
  lemma EventIs(cfg: Config, w: World, e: Event)
    requires cfg.windowMs > 0 && cfg.targetSpm > 0.0 && w.pending.None? && !e.NewJob? && !e.Send?
    requires (e.Share? ==> w.conn.authorized) && (e.Authorize? ==> e.earlier >= 0.0)
    ensures var w' := Next(cfg, w, e);
      && w'.net == w.net && w'.sent == w.sent
      && w'.conn == (match e
           case Share(achieved, mined, now) =>
             Retargeted(cfg, w.net, w.conn.(window := Counted(w.conn.window, achieved, mined)), now)
           case Suggest(req) => Requested(cfg, w.net, w.conn, req)
           case Authorize(earlier, pwDiff, now) => Authorized(cfg, earlier, w.net, w.conn, pwDiff, now)
           case _ => w.conn)
      && (w'.pending.Some? <==> e.Authorize? || (w.conn.authorized && w'.conn.difficulty != w.conn.difficulty))
      && (w'.pending.Some? ==> w'.pending.value.value == w'.conn.difficulty && w'.pending.value.read == w.net)
  {
    hide Clamp, Requested, Counted, Authorized, Asked, Aimed, CutRequest;
    if e.Share? {
      RetargetKeepsRest(cfg, w.net, w.conn.(window := Counted(w.conn.window, e.achieved, e.mined)), e.now);
    }
    hide Retargeted;
  }

  /** A job moves the chain's difficulty and nothing else; a message that is out moves nothing but the wire. */
  lemma ChainAndWire(cfg: Config, w: World, net: real)
    requires cfg.windowMs > 0 && cfg.targetSpm > 0.0
    ensures Next(cfg, w, NewJob(net)) == w.(net := if net > 0.0 then net else w.net)
    ensures var w' := Next(cfg, w, Send);
      && w' == w.(pending := None, sent := w'.sent)
      && w'.sent == w.sent + if w.pending.Some? then [Sent(w.pending.value, w.net)] else []
  {
  }

  lemma RetargetKeepsRest(cfg: Config, net: real, c: Conn, now: nat)
    requires cfg.windowMs > 0 && cfg.targetSpm > 0.0
    ensures var c' := Retargeted(cfg, net, c, now); c'.authorized == c.authorized && c'.policy == c.policy
  {
    hide Clamp, Proposal, Bounded, Due;
  }
}
