/** The states of a proxy session and the transitions between them. */
module SessionState {
  datatype State =
    | Unconfigured
    | Instantiated
    | SocketConnecting
    | SocketReady
    | SessionCreated
    | Initialized
    | Running
    | Paused
    | Terminated
    | Error

  predicate CanTransition(from: State, to: State) {
    from == to ||
    match from
    case Unconfigured => to == Instantiated
    case Instantiated => to == SocketConnecting || to == Terminated
    case SocketConnecting => to == SocketReady || to == Error
    case SocketReady => to == SessionCreated || to == Error
    case SessionCreated => to == Initialized || to == Error
    case Initialized => to == Running || to == Paused || to == Terminated
    case Running => to == Paused || to == Terminated || to == Error
    case Paused => to == Running || to == Terminated || to == Error
    case Terminated => to == Instantiated
    case Error => to == Instantiated
  }

  /** Where each state can be entered from: forwards one by one, and back to the start only over an end. */
  lemma EnteredOnlyFrom(from: State, to: State)
    ensures from != to && CanTransition(from, to) <==>
            || (to == Instantiated && from in {Unconfigured, Terminated, Error})
            || (to == SocketConnecting && from == Instantiated)
            || (to == SocketReady && from == SocketConnecting)
            || (to == SessionCreated && from == SocketReady)
            || (to == Initialized && from == SessionCreated)
            || (to == Running && from in {Initialized, Paused})
            || (to == Paused && from in {Initialized, Running})
            || (to == Terminated && from in {Instantiated, Initialized, Running, Paused})
            || (to == Error && from in {SocketConnecting, SocketReady, SessionCreated, Running, Paused})
  {
  }

  /** The states in which simulation steps are possible. */
  predicate Simulating(state: State) {
    state == Initialized || state == Running
  }

  /**
   What one call to a runtime can make of its state. Resets, terminations and failures assign it without
   asking the table, so that a created session can be terminated, or an initialized one fail.
   */
  predicate CanMove(from: State, to: State) {
    || to == from
    || to == Instantiated
    || (to == Terminated && from != Unconfigured)
    || (to == Error && from != Unconfigured)
    || (from == Instantiated && to == SessionCreated)
    || (from == SessionCreated && to == Initialized)
    || (from == Initialized && to == Running)
  }

  /** Of the states visible between calls, only an instantiated runtime may begin to connect; then the way is free. */
  lemma ConnectingSteps(from: State)
    ensures CanTransition(from, SocketConnecting) <==> from == Instantiated || from == SocketConnecting
    ensures CanTransition(SocketConnecting, SocketReady) && CanTransition(SocketReady, SessionCreated)
    ensures CanTransition(SessionCreated, Initialized)
  {
  }

  /** The states of a runtime between its calls. */
  predicate IsRun(states: seq<State>) {
    forall i | 0 < i < |states| :: CanMove(states[i - 1], states[i])
  }

  /** Nothing starts simulating without passing from a created session to initialized. */
  lemma {:induction false} SimulatingNeedsSession(states: seq<State>)
    requires IsRun(states) && |states| > 0
    requires !Simulating(states[0]) && Simulating(states[|states| - 1])
    ensures exists i :: 0 <= i < |states| - 1 && states[i] == SessionCreated && states[i + 1] == Initialized
    decreases |states|
  {
    var n := |states| - 1;
    assert CanMove(states[n - 1], states[n]);
    if Simulating(states[n - 1]) {
      SimulatingNeedsSession(states[..n]);
      var i :| 0 <= i < n - 1 && states[..n][i] == SessionCreated && states[..n][i + 1] == Initialized;
      assert states[i] == SessionCreated && states[i + 1] == Initialized;
    } else {
      assert states[n - 1] == SessionCreated && states[n - 1 + 1] == Initialized;
    }
  }
}
