/**
 * The view-transition state machine of frontend/app/hooks/useBranchAnimation.ts.
 *
 * The hook holds two pieces of state, the view mode and the branch animation
 * record, and one effect that runs after every assignment of a new animation
 * record: it cancels the timer the previous run scheduled, and, when the
 * record is animating, applies the stage's view-mode change and schedules
 * the next transition. Timers are data here: a pending `Timer` carries its
 * delay in milliseconds and the callback it will run, and `Tick` is the
 * firing of that timer.
 */
module Animation {
  import opened Wrappers

  datatype ViewMode = Focused | GraphView

  datatype Stage = Idle | SwitchingToGraph | DrawingBranch | FlowingContext | ExpandingNode | ReturningToFocus

  datatype BranchAnimation = BranchAnimation(
    isAnimating: bool,
    stage: Stage,
    newNodeId: Option<string>,
    parentNodeId: Option<string>)

  /** The hook's initial animation record, which is also what the last stage resets to. */
  const Initial := BranchAnimation(false, Idle, None, None)

  /** The record the branch controller assigns to start the chain. */
  function Start(newNodeId: string, parentNodeId: string): (a: BranchAnimation)
    ensures a.isAnimating && a.stage == SwitchingToGraph
    ensures a.newNodeId == Some(newNodeId) && a.parentNodeId == Some(parentNodeId)
  {
    BranchAnimation(true, SwitchingToGraph, Some(newNodeId), Some(parentNodeId))
  }

  /** What a scheduled callback does to the record it finds when it fires. */
  datatype Callback = Advance(to: Stage) | Reset

  datatype Timer = Timer(delay: nat, callback: Callback)

  /**
   * The stage chain as a table: each animating stage, in order, with how long
   * it lasts. The last stage's timer resets the record instead of advancing.
   */
  const Chain: seq<(Stage, nat)> := [
    (SwitchingToGraph, 300),
    (DrawingBranch, 500),
    (FlowingContext, 2000),
    (ExpandingNode, 600),
    (ReturningToFocus, 300)
  ]

  /** Total length of one uninterrupted chain, in milliseconds. */
  function ChainLength(i: nat): (total: nat)
    requires i <= |Chain|
    ensures i < |Chain| ==> total >= Chain[i].1
    decreases |Chain| - i
  {
    if i == |Chain| then 0 else Chain[i].1 + ChainLength(i + 1)
  }

  /** The timer the effect schedules for a record: the switch over `stage`. */
  function Scheduled(a: BranchAnimation): (t: Option<Timer>)
    ensures t.Some? <==> a.isAnimating && a.stage != Idle
    ensures t.Some? && t.value.callback.Advance? ==> t.value.callback.to != Idle
  {
    if !a.isAnimating then None
    else match a.stage
      case SwitchingToGraph => Some(Timer(300, Advance(DrawingBranch)))
      case DrawingBranch => Some(Timer(500, Advance(FlowingContext)))
      case FlowingContext => Some(Timer(2000, Advance(ExpandingNode)))
      case ExpandingNode => Some(Timer(600, Advance(ReturningToFocus)))
      case ReturningToFocus => Some(Timer(300, Reset))
      case Idle => None
  }

  /** The switch follows the table: stage i lasts Chain[i].1 and hands over to stage i + 1. */
  lemma {:induction false} ScheduledFollowsChain(a: BranchAnimation, i: nat)
    requires a.isAnimating && i < |Chain| && a.stage == Chain[i].0
    ensures Scheduled(a).Some? && Scheduled(a).value.delay == Chain[i].1
    ensures i + 1 < |Chain| ==> Scheduled(a).value.callback == Advance(Chain[i + 1].0)
    ensures i + 1 == |Chain| ==> Scheduled(a).value.callback == Reset
  {
  }

  /** The view mode after the effect runs for a record: only two stages touch it. */
  function ViewAfter(view: ViewMode, a: BranchAnimation): (v: ViewMode)
    ensures a.isAnimating && a.stage == SwitchingToGraph ==> v == GraphView
    ensures a.isAnimating && a.stage == ReturningToFocus ==> v == Focused
    ensures !a.isAnimating || a.stage !in {SwitchingToGraph, ReturningToFocus} ==> v == view
  {
    if a.isAnimating && a.stage == SwitchingToGraph then GraphView
    else if a.isAnimating && a.stage == ReturningToFocus then Focused
    else view
  }

  /** A callback applied to the record current when it fires (`prev => ...`). */
  function Fire(c: Callback, prev: BranchAnimation): (a: BranchAnimation)
    ensures c.Advance? ==> a == prev.(stage := c.to)
    ensures c.Reset? ==> a == Initial
  {
    match c
    case Advance(to) => prev.(stage := to)
    case Reset => Initial
  }

  /** `toggleViewMode`. */
  function Toggle(v: ViewMode): (r: ViewMode)
    ensures r != v
  {
    if v == Focused then GraphView else Focused
  }

  lemma {:induction false} ToggleTwice(v: ViewMode)
    ensures Toggle(Toggle(v)) == v
  {
  }

  /** The hook's whole state: both state variables and the timer pending, if any. */
  datatype Machine = Machine(viewMode: ViewMode, animation: BranchAnimation, pending: Option<Timer>)

  /**
   * Assigning a record: the cleanup of the previous effect run drops the
   * pending timer, and the new run schedules the record's own.
   */
  function Assign(m: Machine, a: BranchAnimation): (r: Machine)
    ensures r.animation == a && r.viewMode == ViewAfter(m.viewMode, a)
    ensures r.pending == Scheduled(a)
  {
    Machine(ViewAfter(m.viewMode, a), a, Scheduled(a))
  }

  /** The pending timer fires: its callback assigns a new record. */
  function Tick(m: Machine): (r: Machine)
    requires m.pending.Some?
    ensures r.animation == Fire(m.pending.value.callback, m.animation)
    ensures r.pending == Scheduled(r.animation)
  {
    Assign(m, Fire(m.pending.value.callback, m.animation))
  }

  /** Up to `n` timer firings; stops early once nothing is pending. Returns the time that passed. */
  function Elapse(m: Machine, n: nat): (r: (Machine, nat))
    ensures n == 0 || m.pending.None? ==> r == (m, 0)
    decreases n
  {
    if n == 0 || m.pending.None? then (m, 0)
    else
      var next := Elapse(Tick(m), n - 1);
      (next.0, m.pending.value.delay + next.1)
  }

  /** Nothing is ever scheduled while the record is not animating, or is idle. */
  lemma {:induction false} QuietStates(m: Machine, a: BranchAnimation)
    requires !a.isAnimating || a.stage == Idle
    ensures Assign(m, a).pending.None? && Assign(m, a).viewMode == m.viewMode
    ensures forall n: nat :: Elapse(Assign(m, a), n) == (Assign(m, a), 0)
  {
  }

  /**
   * Stage i of the chain, reached after i uninterrupted firings from `Start`:
   * still animating with the same ids, showing the graph until the last stage.
   */
  ghost predicate AtStage(m: Machine, i: nat, newNodeId: string, parentNodeId: string)
    requires i < |Chain|
  {
    && m.animation == Start(newNodeId, parentNodeId).(stage := Chain[i].0)
    && m.viewMode == (if i + 1 == |Chain| then Focused else GraphView)
    && m.pending == Scheduled(m.animation)
  }

  lemma {:induction false} ChainStep(m: Machine, i: nat, newNodeId: string, parentNodeId: string)
    requires i + 1 < |Chain| && AtStage(m, i, newNodeId, parentNodeId)
    ensures m.pending.Some? && AtStage(Tick(m), i + 1, newNodeId, parentNodeId)
    ensures m.pending.value.delay == Chain[i].1
  {
    ScheduledFollowsChain(m.animation, i);
    ScheduledFollowsChain(Tick(m).animation, i + 1);
  }

  lemma {:induction false} ChainRest(m: Machine, i: nat, newNodeId: string, parentNodeId: string)
    requires i < |Chain| && AtStage(m, i, newNodeId, parentNodeId)
    ensures Elapse(m, |Chain| - i) == (Machine(Focused, Initial, None), ChainLength(i))
    decreases |Chain| - i
  {
    ScheduledFollowsChain(m.animation, i);
    if i + 1 < |Chain| {
      ChainStep(m, i, newNodeId, parentNodeId);
      ChainRest(Tick(m), i + 1, newNodeId, parentNodeId);
    } else {
      assert Tick(m) == Machine(Focused, Initial, None);
    }
  }

  /**
   * A branch, from any state (a chain already in flight included, whose timer
   * is dropped): the view switches to the graph at once; after five firings
   * totalling 3700 ms the view is back to focused, the record is reset and
   * nothing remains scheduled.
   */
  lemma {:induction false} BranchChain(m: Machine, newNodeId: string, parentNodeId: string)
    ensures Assign(m, Start(newNodeId, parentNodeId)).viewMode == GraphView
    ensures Assign(m, Start(newNodeId, parentNodeId)).pending == Some(Timer(300, Advance(DrawingBranch)))
    ensures Elapse(Assign(m, Start(newNodeId, parentNodeId)), 5) == (Machine(Focused, Initial, None), 3700)
  {
    var m0 := Assign(m, Start(newNodeId, parentNodeId));
    assert AtStage(m0, 0, newNodeId, parentNodeId);
    ChainRest(m0, 0, newNodeId, parentNodeId);
  }

  /** Intermediate firings keep `isAnimating` and both ids. */
  lemma {:induction false} AdvanceKeepsIds(m: Machine)
    requires m.pending.Some? && m.pending.value.callback.Advance?
    ensures Tick(m).animation.isAnimating == m.animation.isAnimating
    ensures Tick(m).animation.newNodeId == m.animation.newNodeId
    ensures Tick(m).animation.parentNodeId == m.animation.parentNodeId
    ensures Tick(m).animation.stage == m.pending.value.callback.to
  {
  }

  /** The hook instance: its two state variables and the pending timer. */
  class BranchAnimationHook {
    var viewMode: ViewMode
    var branchAnimation: BranchAnimation
    var pending: Option<Timer>

    function State(): Machine
      reads this
    {
      Machine(viewMode, branchAnimation, pending)
    }

    /** Mount: focused, the initial record, and the effect schedules nothing for it. */
    constructor ()
      ensures State() == Machine(Focused, Initial, None)
      ensures State() == Assign(Machine(Focused, Initial, None), Initial)
    {
      viewMode := Focused;
      branchAnimation := Initial;
      pending := None;
    }

    /** Runs the effect for the current record after its cleanup dropped the old timer. */
    method RunEffect()
      modifies this
      ensures branchAnimation == old(branchAnimation)
      ensures viewMode == ViewAfter(old(viewMode), branchAnimation)
      ensures pending == Scheduled(branchAnimation)
    {
      pending := None;
      if !branchAnimation.isAnimating {
        return;
      }
      match branchAnimation.stage {
        case SwitchingToGraph =>
          viewMode := GraphView;
          pending := Some(Timer(300, Advance(DrawingBranch)));
        case DrawingBranch =>
          pending := Some(Timer(500, Advance(FlowingContext)));
        case FlowingContext =>
          pending := Some(Timer(2000, Advance(ExpandingNode)));
        case ExpandingNode =>
          pending := Some(Timer(600, Advance(ReturningToFocus)));
        case ReturningToFocus =>
          viewMode := Focused;
          pending := Some(Timer(300, Reset));
        case Idle =>
      }
    }

    /** `setBranchAnimation(a)` followed by the effect it triggers. */
    method SetBranchAnimation(a: BranchAnimation)
      modifies this
      ensures State() == Assign(old(State()), a)
    {
      branchAnimation := a;
      RunEffect();
    }

    /** The pending timer fires. */
    method FireTimer()
      requires pending.Some?
      modifies this
      ensures State() == Tick(old(State()))
    {
      var t := pending.value;
      match t.callback {
        case Advance(to) => branchAnimation := branchAnimation.(stage := to);
        case Reset => branchAnimation := Initial;
      }
      RunEffect();
    }

    /** `setViewMode(v)`, which the hook also hands out. */
    method SetViewMode(v: ViewMode)
      modifies this`viewMode
      ensures viewMode == v
    {
      viewMode := v;
    }

    method ToggleViewMode()
      modifies this`viewMode
      ensures viewMode == Toggle(old(viewMode))
    {
      viewMode := if viewMode == Focused then GraphView else Focused;
    }
  }
}
