/**
 * The MEDIUM_ACCESS state of MAC/MAC_StateMachine.c: the supervisor loop around the power-mode
 * machine, as runs over every possible environment.
 */
module MediumAccess {
  import opened Wrappers
  import opened DataPackets
  import opened PacketQueues
  import opened PowerModes

  // --- Runs -----------------------------------------------------------------------------------

  /** One completed execution: the state, what it returned and proposed, and the verdict of the update, if any. */
  datatype Visit = Visit(state: PowerMode, ret: Execution, proposed: PowerMode, verdict: Option<Transition>)

  datatype Status =
    | Running // between two executions
    | Waiting // inside a waiting loop whose script has ended
    | Exited  // the supervisor loop is over and FINISHP has been executed

  /** log is every data packet that has passed through the node since it entered MEDIUM_ACCESS. */
  datatype Run = Run(node: Node, trace: seq<Visit>, log: Log, status: Status)

  function Verdict(n: Node): Transition {
    UpdatePower(n.power, n.next).1
  }

  function Updated(n: Node): (r: Node)
    ensures GoodNode(n) ==> GoodNode(r)
  {
    n.(power := UpdatePower(n.power, n.next).0)
  }

  /** mclmac_init_powermode_state_machine, the execution of STARTP, and the update after it. */
  function Enter(n: Node): (r: Node)
    requires GoodNode(n)
    ensures GoodNode(r)
  {
    Updated(ExecStart(n.(power := STARTP, next := NONEP)))
  }

  /** What the supervisor does about a return value, short of leaving. */
  function Handled(n: Node, ret: Execution): (r: Node)
    ensures GoodNode(n) ==> GoodNode(r)
  {
    match ret
    case ExecutionSuccess => Updated(n)
    case CollisionError => n.(next := FINISHP, macNext := SYNCHRONIZATION)
    case SynchronizationError => n.(next := FINISHP, macNext := INITIALIZATION)
    case CollisionDetected =>
      n.(collision := n.collision.(detected := true, slot := n.frame.currentSlot, frequency := n.peers.receiveChannel),
         peers := n.peers.(destination := BROADCAST))
    case ExecutionFailed => n
  }

  predicate Leaves(ret: Execution) {
    ret == CollisionError || ret == SynchronizationError
  }

  /** What follows the supervisor loop: an update, and one more execution. */
  function Leave(n: Node, s: Script): (r: Node)
    requires GoodNode(n)
    ensures GoodNode(r)
  {
    Execute(Updated(n), s).node
  }

  function VisitOf(n: Node, step: Step): Visit {
    Visit(n.power, step.ret, step.node.next, if step.ret == ExecutionSuccess then Some(Verdict(step.node)) else None)
  }

  /** What becomes of a run when an execution has gone as far as step says. */
  function Conclude(r: Run, step: Step, s: Script): (t: Run)
    requires GoodNode(step.node)
    ensures GoodNode(t.node)
  {
    if !step.done then r.(node := step.node, log := Plus(r.log, step.log), status := Waiting)
    else
      var n := Handled(step.node, step.ret);
      var trace := r.trace + [VisitOf(r.node, step)];
      if Leaves(step.ret) then Run(Leave(n, s), trace, Plus(r.log, step.log), Exited)
      else Run(n, trace, Plus(r.log, step.log), Running)
  }

  /** One turn of the supervisor loop; the turn that ends the loop also executes what follows it. */
  function Supervise(r: Run, s: Script): (t: Run)
    requires GoodNode(r.node)
    ensures GoodNode(t.node)
  {
    Conclude(r, Execute(r.node, s), s)
  }

  /** MEDIUM_ACCESS, entered in n, for as many turns as there are scripts. */
  function RunMedium(n: Node, scripts: seq<Script>): (r: Run)
    requires GoodNode(n)
    ensures GoodNode(r.node)
  {
    if scripts == [] then Run(Enter(n), [], NOTHING, Running)
    else
      var r := RunMedium(n, scripts[..|scripts| - 1]);
      if r.status == Running then Supervise(r, scripts[|scripts| - 1]) else r
  }
}
