/** The lifecycle transition table (`src/lifecycle.cpp`). */
module SrfLifecycle {
  import opened SrfTypes

  /** The next state, or nothing when the event is denied in this state. */
  function Transition(s: LifecycleState, e: LifecycleEvent): Option<LifecycleState> {
    match e
    case ValidateBegin => if s.Declared? then Some(Validating) else None
    case ValidateSucceed => if s.Validating? then Some(Active) else None
    case ValidateFail => if s.Validating? then Some(Declared) else None
    case RevalidateBegin => if s.Active? || s.RevalidationRequired? then Some(Validating) else None
    case RevalidateSucceed => if s.Active? || s.RevalidationRequired? then Some(Active) else None
    case RevalidateFail => if s.RevalidationRequired? then Some(RevalidationRequired) else None
    case DependencyChanged =>
      (match s
       case Declared => None
       case Validating => Some(Declared)
       case Active => Some(RevalidationRequired)
       case RevalidationRequired => Some(RevalidationRequired)
       case Retired => None
       case _ => Some(s))
    case WithdrawBegin => if Open(s) then Some(Withdrawing) else None
    case WithdrawCommit => if s.Withdrawing? then Some(Withdrawn) else None
    case SupersedeBegin => if s.Superseded? || s.Revoked? || s.Retired? then None else Some(Superseded)
    case SupersedeCommit => if s.Superseded? then Some(Superseded) else None
    case Revoke => if s.Revoked? || s.Retired? then None else Some(Revoked)
    case Retire => if s.Retired? then None else Some(Retired)
    case Reactivate => None
    case RecoveryLoad =>
      (match s
       case Declared => Some(Declared)
       case Validating => Some(Declared)
       case Active => Some(RevalidationRequired)
       case RevalidationRequired => Some(RevalidationRequired)
       case Withdrawing => Some(Withdrawn)
       case _ => Some(s))
    case ReplaceBegin => if Open(s) then Some(Validating) else None
  }

  /** The states in which a lineage still accepts a new revision. */
  predicate Open(s: LifecycleState) {
    s.Declared? || s.Validating? || s.Active? || s.RevalidationRequired?
  }

  predicate Closed(s: LifecycleState) { !Open(s) }

  /** Closed states are left by no event, and only closed states refuse a replacement. */
  lemma ClosedIsAbsorbing(s: LifecycleState, e: LifecycleEvent)
    ensures Closed(s) && Transition(s, e).Some? ==> Closed(Transition(s, e).value)
    ensures Closed(s) <==> Transition(s, ReplaceBegin).None?
  {}

  // ------------------------------------------------------------ the table, by states

  /** The states from which, and the state to which, each event leads. */
  ghost predicate Leads(e: LifecycleEvent, from: LifecycleState, to: LifecycleState) {
    match to
    case Declared =>
      (e == ValidateFail && from == Validating) || (e == DependencyChanged && from == Validating)
      || (e == RecoveryLoad && from in {Declared, Validating})
    case Validating =>
      (e == ValidateBegin && from == Declared) || (e == RevalidateBegin && from in {Active, RevalidationRequired})
      || (e == ReplaceBegin && from in {Declared, Validating, Active, RevalidationRequired})
    case Active =>
      (e == ValidateSucceed && from == Validating)
      || (e == RevalidateSucceed && from in {Active, RevalidationRequired})
    case RevalidationRequired =>
      (e == RevalidateFail && from == RevalidationRequired)
      || (e in {DependencyChanged, RecoveryLoad} && from in {Active, RevalidationRequired})
    case Withdrawing =>
      (e == WithdrawBegin && from in {Declared, Validating, Active, RevalidationRequired})
      || (e == DependencyChanged && from == Withdrawing)
    case Withdrawn =>
      (e == WithdrawCommit && from == Withdrawing) || (e == DependencyChanged && from == Withdrawn)
      || (e == RecoveryLoad && from in {Withdrawing, Withdrawn})
    case Superseded =>
      (e == SupersedeBegin
       && from in {Declared, Validating, Active, RevalidationRequired, Withdrawing, Withdrawn})
      || (e in {SupersedeCommit, DependencyChanged, RecoveryLoad} && from == Superseded)
    case Revoked =>
      (e == LifecycleEvent.Revoke && from !in {Revoked, Retired})
      || (e in {DependencyChanged, RecoveryLoad} && from == Revoked)
    case Retired =>
      (e == LifecycleEvent.Retire && from != Retired) || (e == RecoveryLoad && from == Retired)
  }

  /** The table says what the rules say: an event is allowed exactly where a rule leads on, and to that state. */
  lemma TransitionExactly(s: LifecycleState, e: LifecycleEvent, t: LifecycleState)
    ensures Transition(s, e) == Some(t) <==> Leads(e, s, t)
  {}
}
