/** Happenings of a command run that are worth counting, and how often they occur. */
module CommandTallies {
  import opened CommandModel

  /** A flush takes a finished row of this status and type out of the state its counter counted. */
  ghost predicate Reopens(s: Store, step: Step, status: Status, kind: Kind) {
    && step.Flush? && LiveQueued(s, step.now, step.uid)
    && var row := s.rows[s.queued[step.uid].id]; row.status == status && row.kind == kind
  }

  /** An acknowledgement over TCP puts a row of this type into ACKED without counting it. */
  predicate AcksUncounted(s: Store, step: Step, status: Status, kind: Kind) {
    step.TcpAck? && step.pick.Some? && step.pick.value < |s.rows| && status == Acked && s.rows[step.pick.value].kind == kind
  }

  /** A flush reopens the finished command. */
  ghost predicate Revives(s: Store, step: Step, id: nat) {
    step.Flush? && LiveQueued(s, step.now, step.uid) && s.queued[step.uid].id == id && Terminal(s.rows[id].status)
  }

  /** An accepted request that gets as far as the SMS provider. */
  predicate AsksBySms(s: Store, now: int, r: Request) {
    && Judge(s, now, r) == Accepted && !r.channels.tcp && r.device.value.sim != ""
    && r.channels.crash != AfterCreate && r.channels.crash != AfterQueue
  }

  /** The request that creates the command calls the SMS provider for it. */
  predicate RequestTries(s: Store, step: Step, id: nat) {
    step.Ask? && id == |s.rows| && AsksBySms(s, step.now, step.request)
  }

  predicate EscalatedIn(s: Store, items: seq<SweepItem>, id: nat) {
    id < |s.rows| && exists i :: 0 <= i < |items| && items[i].id == id && Escalates(s.rows[id], items[i])
  }

  /** A sweep dies after calling the provider for the command and before writing anything for it. */
  predicate LosesCall(s: Store, step: Step, id: nat) {
    step.Sweep? && step.dying.Some? && step.dying.value.id == id < |s.rows| && Escalates(s.rows[id], step.dying.value)
  }

  /** A sweep calls the provider for the command, whether or not it lives to record it. */
  predicate SweepTries(s: Store, step: Step, id: nat) {
    step.Sweep? && (EscalatedIn(s, step.items, id) || LosesCall(s, step, id))
  }

  /** The process dies between a delivery for the command and the write that records it. */
  predicate LosesDelivery(s: Store, step: Step, id: nat) {
    || (RequestTries(s, step, id) && step.request.channels.sms == SmsResult.Delivered && step.request.channels.crash == AfterSms)
    || (LosesCall(s, step, id) && step.dying.value.sms == SmsResult.Delivered)
  }

  datatype Mark =
    | Reopening(status: Status, kind: Kind) | UncountedAck(status: Status, kind: Kind)
    | Revival(id: nat) | RequestTry(id: nat) | SweepTry(id: nat) | LostCall(id: nat) | LostDelivery(id: nat)

  ghost predicate Marked(m: Mark, s: Store, step: Step) {
    match m
    case Reopening(status, kind) => Reopens(s, step, status, kind)
    case UncountedAck(status, kind) => AcksUncounted(s, step, status, kind)
    case Revival(id) => Revives(s, step, id)
    case RequestTry(id) => RequestTries(s, step, id)
    case SweepTry(id) => SweepTries(s, step, id)
    case LostCall(id) => LosesCall(s, step, id)
    case LostDelivery(id) => LosesDelivery(s, step, id)
  }

  /** The number of marked steps among the first `n`, each judged in the store it was taken in. */
  ghost function Times(states: seq<Store>, steps: seq<Step>, n: nat, m: Mark): nat
    requires n <= |steps| && n <= |states|
  {
    if n == 0 then 0 else Times(states, steps, n - 1, m) + (if Marked(m, states[n - 1], steps[n - 1]) then 1 else 0)
  }

  lemma {:induction false} NeverMeansZero(states: seq<Store>, steps: seq<Step>, n: nat, m: Mark)
    requires n <= |steps| && n <= |states| && forall k :: 0 <= k < n ==> !Marked(m, states[k], steps[k])
    ensures Times(states, steps, n, m) == 0
  {
    if n > 0 { NeverMeansZero(states, steps, n - 1, m); }
  }
}
