/**
 * The priority event of MagicPriorityEvent.java: what happens when the
 * player with priority passes, skips, or plays an activation.  Two passes in
 * succession resolve the top of the stack (rule 117.4 of the Magic: The
 * Gathering Comprehensive Rules); a first pass hands priority to the other
 * player by toggling the step between ActivePlayer and OtherPlayer.
 *
 * The game state this event touches is a class whose fields the event
 * updates in place; `Execute` is the same transition on a value, against
 * which the method is proved and about which the properties are stated.
 */
module PriorityEvent {
  /** One of the two players, by index. */
  type PlayerIndex = i: int | 0 <= i < 2

  function Opponent(p: PlayerIndex): (r: PlayerIndex)
    ensures r != p
  {
    1 - p
  }

  /** The steps of the game's priority cycle; every other MagicStep is OtherStep. */
  datatype Step = ActivePlayer | OtherPlayer | OtherStep(name: string)

  /** MagicActivationPriority: the priority an activation claimed and the id of the last activation. */
  datatype ActivationPriority = ActivationPriority(priority: int, activationId: int)

  /** What clear() resets an activation priority to. */
  const CLEARED: ActivationPriority := ActivationPriority(0, 0)

  /** An event put on the game's event queue. */
  datatype Event = Event(id: nat)

  /**
   * A chosen activation: the controller of its source, whether it uses the
   * stack, the priority it claims for its controller, its cost events and
   * the event that performs it.
   */
  datatype SourceActivation = SourceActivation(
    controller: PlayerIndex,
    usesStack: bool,
    claimed: ActivationPriority,
    costEvents: seq<Event>,
    event: Event)

  /** MagicPlayChoiceResult: PASS, SKIP, or an activation to play. */
  datatype PlayChoice = Pass | Skip | Play(activation: SourceActivation)

  predicate IsPassing(c: PlayChoice) { c.Pass? || c.Skip? }

  /** The part of MagicGame this event reads and writes. */
  datatype Game = Game(
    passedCount: nat,
    priorityPassed: bool,
    step: Step,
    priorityPlayer: PlayerIndex,
    priorities: seq<ActivationPriority>,
    payedCost: seq<int>,
    events: seq<Event>,
    resolved: nat)

  predicate WellFormedGame(g: Game) { |g.priorities| == 2 }

  /** The step after a first pass; only ActivePlayer and OtherPlayer have one. */
  function Toggle(s: Step): (r: Step)
    requires s.ActivePlayer? || s.OtherPlayer?
    ensures r != s && (r.ActivePlayer? || r.OtherPlayer?)
  {
    if s.ActivePlayer? then OtherPlayer else ActivePlayer
  }

  /** Two first passes hand priority back: toggling twice restores the step. */
  lemma ToggleTwice(s: Step)
    requires s.ActivePlayer? || s.OtherPlayer?
    ensures Toggle(Toggle(s)) == s
  {
  }

  /** The activation id of player p goes up by one (incActivationId). */
  function BumpId(ps: seq<ActivationPriority>, p: PlayerIndex): seq<ActivationPriority>
    requires |ps| == 2
  {
    ps[p := ps[p].(activationId := ps[p].activationId + 1)]
  }

  /**
   * executeEvent as a transition: the new game state, and false when a first
   * pass happens in a step with no other player to hand priority to (the
   * IllegalStateException, thrown after the earlier updates took effect).
   */
  function Execute(g: Game, c: PlayChoice): (r: (Game, bool))
    requires WellFormedGame(g)
    ensures WellFormedGame(r.0)
  {
    if IsPassing(c) then
      var counted := g.(passedCount := g.passedCount + 1);
      var bumped := if c.Pass? then counted.(priorities := BumpId(g.priorities, g.priorityPlayer)) else counted;
      if g.priorityPassed then
        (bumped.(priorityPassed := false, resolved := g.resolved + 1), true)
      else if g.step.ActivePlayer? || g.step.OtherPlayer? then
        (bumped.(priorityPassed := true, step := Toggle(g.step)), true)
      else
        (bumped.(priorityPassed := true), false)
    else
      var sa := c.activation;
      var flag := if sa.usesStack then false else g.priorityPassed;
      var ps := g.priorities[sa.controller := sa.claimed][Opponent(sa.controller) := CLEARED];
      (g.(priorityPassed := flag, priorities := ps, payedCost := [],
          events := g.events + sa.costEvents + [sa.event]), true)
  }

  /** PASS and SKIP both count a pass; playing an activation does not. */
  lemma PassingCounts(g: Game, c: PlayChoice)
    requires WellFormedGame(g)
    ensures Execute(g, c).0.passedCount == g.passedCount + (if IsPassing(c) then 1 else 0)
  {
  }

  /** Only PASS moves the priority player's activation id on; SKIP leaves every id alone. */
  lemma OnlyPassBumpsId(g: Game, c: PlayChoice)
    requires WellFormedGame(g) && IsPassing(c)
    ensures var r := Execute(g, c).0;
            && r.priorities[Opponent(g.priorityPlayer)] == g.priorities[Opponent(g.priorityPlayer)]
            && r.priorities[g.priorityPlayer].priority == g.priorities[g.priorityPlayer].priority
            && r.priorities[g.priorityPlayer].activationId
                 == g.priorities[g.priorityPlayer].activationId + (if c.Pass? then 1 else 0)
  {
  }

  /** A pass after a pass resolves, clears the flag and leaves the step and the queue alone. */
  lemma SecondPassResolves(g: Game, c: PlayChoice)
    requires WellFormedGame(g) && IsPassing(c) && g.priorityPassed
    ensures var (r, ok) := Execute(g, c);
            ok && !r.priorityPassed && r.resolved == g.resolved + 1
            && r.step == g.step && r.events == g.events
  {
  }

  /**
   * A first pass sets the flag and does not resolve; it toggles the step
   * when the step is ActivePlayer or OtherPlayer and fails in any other step.
   */
  lemma FirstPassToggles(g: Game, c: PlayChoice)
    requires WellFormedGame(g) && IsPassing(c) && !g.priorityPassed
    ensures var (r, ok) := Execute(g, c);
            && r.priorityPassed && r.resolved == g.resolved && r.events == g.events
            && (ok <==> g.step.ActivePlayer? || g.step.OtherPlayer?)
            && (ok ==> r.step == Toggle(g.step))
            && (!ok ==> r.step == g.step)
  {
  }

  /**
   * Rule 117.4: from a first pass in ActivePlayer or OtherPlayer, passing
   * twice in succession resolves exactly once and leaves the flag clear.
   */
  lemma TwoPassesResolve(g: Game, c1: PlayChoice, c2: PlayChoice)
    requires WellFormedGame(g) && IsPassing(c1) && IsPassing(c2) && !g.priorityPassed
    requires g.step.ActivePlayer? || g.step.OtherPlayer?
    ensures var (g1, ok1) := Execute(g, c1);
            var (g2, ok2) := Execute(g1, c2);
            && ok1 && ok2 && !g2.priorityPassed && g2.resolved == g.resolved + 1
            && g2.passedCount == g.passedCount + 2 && g2.step == Toggle(g.step)
  {
    FirstPassToggles(g, c1);
    SecondPassResolves(Execute(g, c1).0, c2);
  }

  /** Playing clears the flag exactly when the activation uses the stack. */
  lemma PlayFlag(g: Game, sa: SourceActivation)
    requires WellFormedGame(g)
    ensures Execute(g, Play(sa)).0.priorityPassed <==> g.priorityPassed && !sa.usesStack
  {
  }

  /**
   * Playing gives the controller the claimed priority, clears the opponent's,
   * empties the paid cost, and queues the cost events in order with the
   * activation's own event last; the step, the counters and the resolutions stay.
   */
  lemma PlayQueues(g: Game, sa: SourceActivation)
    requires WellFormedGame(g)
    ensures var (r, ok) := Execute(g, Play(sa));
            && ok && r.priorities[sa.controller] == sa.claimed
            && r.priorities[Opponent(sa.controller)] == CLEARED
            && r.payedCost == []
            && |r.events| == |g.events| + |sa.costEvents| + 1
            && r.events[..|g.events|] == g.events
            && (forall i :: 0 <= i < |sa.costEvents| ==> r.events[|g.events| + i] == sa.costEvents[i])
            && r.events[|r.events| - 1] == sa.event
            && r.step == g.step && r.passedCount == g.passedCount && r.resolved == g.resolved
  {
    var r := Execute(g, Play(sa)).0;
    forall i | 0 <= i < |sa.costEvents| ensures r.events[|g.events| + i] == sa.costEvents[i] {
      assert r.events == (g.events + sa.costEvents) + [sa.event];
    }
  }

  class PriorityGame {
    var passedCount: nat
    var priorityPassed: bool
    var step: Step
    var priorityPlayer: PlayerIndex
    /** The activation priority of each player, by index. */
    var priorities: seq<ActivationPriority>
    var payedCost: seq<int>
    /** The game's event queue; addEvent appends. */
    var events: seq<Event>
    /** How many times the game resolved the top of the stack. */
    var resolved: nat

    ghost predicate Valid()
      reads this
    {
      |priorities| == 2
    }

    /** The fields as a Game value. */
    function State(): Game
      reads this
    {
      Game(passedCount, priorityPassed, step, priorityPlayer, priorities, payedCost, events, resolved)
    }

    constructor (first: PlayerIndex, step0: Step)
      ensures Valid() && State() == Game(0, false, step0, first, [CLEARED, CLEARED], [], [], 0)
    {
      passedCount := 0;
      priorityPassed := false;
      step := step0;
      priorityPlayer := first;
      priorities := [CLEARED, CLEARED];
      payedCost := [];
      events := [];
      resolved := 0;
    }

    /** addEvent for each cost event in turn. */
    method AddCostEvents(costs: seq<Event>)
      modifies this
      ensures events == old(events) + costs
      ensures State() == old(State()).(events := old(events) + costs)
    {
      for i := 0 to |costs|
        invariant events == old(events) + costs[..i]
        invariant State() == old(State()).(events := events)
      {
        events := events + [costs[i]];
      }
    }

    /** EVENT_ACTION.executeEvent; ok is false where the source throws. */
    method ExecuteEvent(c: PlayChoice) returns (ok: bool)
      requires Valid()
      modifies this
      ensures Valid()
      ensures (State(), ok) == Execute(old(State()), c)
    {
      ok := true;
      if IsPassing(c) {
        passedCount := passedCount + 1;
        if c.Pass? {
          priorities := BumpId(priorities, priorityPlayer);
        }
        if priorityPassed {
          priorityPassed := false;
          resolved := resolved + 1;
        } else {
          priorityPassed := true;
          if step.ActivePlayer? {
            step := OtherPlayer;
          } else if step.OtherPlayer? {
            step := ActivePlayer;
          } else {
            ok := false;
          }
        }
      } else {
        var sa := c.activation;
        if sa.usesStack {
          priorityPassed := false;
        }
        priorities := priorities[sa.controller := sa.claimed];
        priorities := priorities[Opponent(sa.controller) := CLEARED];
        payedCost := [];
        AddCostEvents(sa.costEvents);
        events := events + [sa.event];
      }
    }
  }
}
