/**
 * The lifecycle state machine of `state_machine.py`: five tracker states, a table of
 * trigger edges, and the tracker object whose `state` each trigger replaces. The table
 * holds the seven declared edges after the five `to_<state>` triggers the state-machine
 * library adds on its own (its `auto_transitions` is left on), each from every state.
 * A trigger without an edge from the current state is refused (the library raises
 * `MachineError`) and the state stays as it was.
 */
module Lifecycle {
  import opened Common

  datatype TrackerState = Initializing | Scanning | Connecting | Transmitting | Error

  /** The states in declaration order (`TrackerState` iterated). */
  const ALL_STATES: seq<TrackerState> := [Initializing, Scanning, Connecting, Transmitting, Error]

  /**
   * The triggers: the seven declared ones, `ErrorOccured` keeping the source's spelling
   * `error_occured`, and the library's `to_<state>` trigger for each state.
   */
  datatype Trigger =
    | InitializeComplete | WifiAvailable | TransmissionComplete | TransmissionFailed
    | ConnectionFailed | ErrorOccured | ErrorResolved
    | ToState(target: TrackerState)

  /** One `add_transition`; a `None` source is the wildcard `'*'`. */
  datatype Edge = Edge(trigger: Trigger, source: Option<TrackerState>, dest: TrackerState)

  /** The library's automatic edges, added with the states: `to_<state>` from everywhere. */
  const AUTO_TRANSITIONS: seq<Edge> := [
    Edge(ToState(Initializing), None, Initializing),
    Edge(ToState(Scanning), None, Scanning),
    Edge(ToState(Connecting), None, Connecting),
    Edge(ToState(Transmitting), None, Transmitting),
    Edge(ToState(Error), None, Error)
  ]

  /** The edges the tracker declares, in the order it adds them. */
  const DECLARED_TRANSITIONS: seq<Edge> := [
    Edge(InitializeComplete, Some(Initializing), Scanning),
    Edge(WifiAvailable, Some(Scanning), Connecting),
    Edge(TransmissionComplete, Some(Connecting), Scanning),
    Edge(TransmissionFailed, Some(Transmitting), Scanning),
    Edge(ConnectionFailed, Some(Connecting), Scanning),
    Edge(ErrorOccured, None, Error),
    Edge(ErrorResolved, Some(Error), Scanning)
  ]

  const TRANSITIONS: seq<Edge> := AUTO_TRANSITIONS + DECLARED_TRANSITIONS

  predicate Applies(e: Edge, s: TrackerState, t: Trigger)
  {
    e.trigger == t && (e.source.None? || e.source.value == s)
  }

  /** The destination of the first edge from index `i` on for trigger `t` from state `s`. */
  function Lookup(s: TrackerState, t: Trigger, i: nat): (d: Option<TrackerState>)
    requires i <= |TRANSITIONS|
    decreases |TRANSITIONS| - i
  {
    if i == |TRANSITIONS| then None
    else if Applies(TRANSITIONS[i], s, t) then Some(TRANSITIONS[i].dest)
    else Lookup(s, t, i + 1)
  }

  /** Firing trigger `t` in state `s`: the next state, or the library's refusal. */
  function Next(s: TrackerState, t: Trigger): (r: Result<TrackerState>)
  {
    match Lookup(s, t, 0)
    case Some(d) => Ok(d)
    case None => Err("MachineError: can't trigger event from the current state")
  }

  /** The intended graph, written trigger by trigger. */
  function Graph(s: TrackerState, t: Trigger): Option<TrackerState>
  {
    match t
    case InitializeComplete => if s == Initializing then Some(Scanning) else None
    case WifiAvailable => if s == Scanning then Some(Connecting) else None
    case TransmissionComplete => if s == Connecting then Some(Scanning) else None
    case TransmissionFailed => if s == Transmitting then Some(Scanning) else None
    case ConnectionFailed => if s == Connecting then Some(Scanning) else None
    case ErrorOccured => Some(Error)
    case ErrorResolved => if s == Error then Some(Scanning) else None
    case ToState(d) => Some(d)
  }

  /** The table, searched in order, gives exactly the intended graph. */
  lemma TableIsGraph(s: TrackerState, t: Trigger)
    ensures Next(s, t).Ok? <==> Graph(s, t).Some?
    ensures Graph(s, t).Some? ==> Next(s, t) == Ok(Graph(s, t).value)
  {
    LookupAuto(s, t);
    LookupDeclared(s, t);
  }

  /** The search through the five automatic edges, written out: each answers its own trigger. */
  lemma LookupAuto(s: TrackerState, t: Trigger)
    ensures Lookup(s, t, 0) == if t.ToState? then Some(t.target) else Lookup(s, t, 5)
  {
    assert TRANSITIONS[..5] == AUTO_TRANSITIONS;
    assert Lookup(s, t, 4) == if t == ToState(Error) then Some(Error) else Lookup(s, t, 5);
    assert Lookup(s, t, 3) == if t == ToState(Transmitting) then Some(Transmitting) else Lookup(s, t, 4);
    assert Lookup(s, t, 2) == if t == ToState(Connecting) then Some(Connecting) else Lookup(s, t, 3);
    assert Lookup(s, t, 1) == if t == ToState(Scanning) then Some(Scanning) else Lookup(s, t, 2);
  }

  /** The search through the seven declared edges, which follow the automatic ones. */
  lemma LookupDeclared(s: TrackerState, t: Trigger)
    ensures Lookup(s, t, 5) ==
      if t == InitializeComplete && s == Initializing then Some(Scanning)
      else if t == WifiAvailable && s == Scanning then Some(Connecting)
      else if t == TransmissionComplete && s == Connecting then Some(Scanning)
      else if t == TransmissionFailed && s == Transmitting then Some(Scanning)
      else if t == ConnectionFailed && s == Connecting then Some(Scanning)
      else if t == ErrorOccured then Some(Error)
      else if t == ErrorResolved && s == Error then Some(Scanning)
      else None
  {
    assert TRANSITIONS[5..] == DECLARED_TRANSITIONS;
    assert Lookup(s, t, 12) == None;
    assert Lookup(s, t, 11) == if t == ErrorResolved && s == Error then Some(Scanning) else None;
    assert Lookup(s, t, 10) == if t == ErrorOccured then Some(Error) else Lookup(s, t, 11);
    assert Lookup(s, t, 9) == if t == ConnectionFailed && s == Connecting then Some(Scanning) else Lookup(s, t, 10);
    assert Lookup(s, t, 8) == if t == TransmissionFailed && s == Transmitting then Some(Scanning) else Lookup(s, t, 9);
    assert Lookup(s, t, 7) == if t == TransmissionComplete && s == Connecting then Some(Scanning) else Lookup(s, t, 8);
    assert Lookup(s, t, 6) == if t == WifiAvailable && s == Scanning then Some(Connecting) else Lookup(s, t, 7);
  }

  /** The states and the table as declared. */
  lemma StatesAndTable()
    ensures |ALL_STATES| == 5 && Distinct(ALL_STATES)
    ensures forall s: TrackerState :: s in ALL_STATES
    ensures |AUTO_TRANSITIONS| == 5 && |DECLARED_TRANSITIONS| == 7
    ensures forall i :: 0 <= i < 5 ==> AUTO_TRANSITIONS[i] == Edge(ToState(ALL_STATES[i]), None, ALL_STATES[i])
  {
    forall s: TrackerState ensures s in ALL_STATES {
      match s
      case Initializing => assert ALL_STATES[0] == s;
      case Scanning => assert ALL_STATES[1] == s;
      case Connecting => assert ALL_STATES[2] == s;
      case Transmitting => assert ALL_STATES[3] == s;
      case Error => assert ALL_STATES[4] == s;
    }
  }

  /** Each named edge leads where the table says. */
  lemma NamedEdges()
    ensures Next(Initializing, InitializeComplete) == Ok(Scanning)
    ensures Next(Scanning, WifiAvailable) == Ok(Connecting)
    ensures Next(Connecting, TransmissionComplete) == Ok(Scanning)
    ensures Next(Connecting, ConnectionFailed) == Ok(Scanning)
    ensures Next(Transmitting, TransmissionFailed) == Ok(Scanning)
  {
    TableIsGraph(Initializing, InitializeComplete);
    TableIsGraph(Scanning, WifiAvailable);
    TableIsGraph(Connecting, TransmissionComplete);
    TableIsGraph(Connecting, ConnectionFailed);
    TableIsGraph(Transmitting, TransmissionFailed);
  }

  /**
   * `transmission_failed` fires only from TRANSMITTING, and of all the triggers only
   * the library's `to_transmitting` leads there.
   */
  lemma TransmittingIsolated(s: TrackerState, t: Trigger)
    ensures Next(s, TransmissionFailed).Ok? <==> s == Transmitting
    ensures Next(s, t) == Ok(Transmitting) <==> t == ToState(Transmitting)
  {
    TableIsGraph(s, TransmissionFailed);
    TableIsGraph(s, t);
  }

  /** Each `to_<state>` trigger leads to its state from every state. */
  lemma AutoTriggers(s: TrackerState, d: TrackerState)
    ensures Next(s, ToState(d)) == Ok(d)
  {
    TableIsGraph(s, ToState(d));
  }

  /** `error_occured` leads to ERROR from every state, ERROR included. */
  lemma ErrorFromEverywhere(s: TrackerState)
    ensures Next(s, ErrorOccured) == Ok(Error)
  {
    TableIsGraph(s, ErrorOccured);
  }

  /**
   * From ERROR the declared triggers other than `error_occured` and `error_resolved` are
   * refused; what leaves ERROR is `error_resolved`, to SCANNING, or a `to_<state>`
   * trigger naming another state.
   */
  lemma LeavingError(t: Trigger)
    ensures Next(Error, t).Ok? <==> t == ErrorOccured || t == ErrorResolved || t.ToState?
    ensures Next(Error, t).Ok? && Next(Error, t).value != Error
            <==> t == ErrorResolved || (t.ToState? && t.target != Error)
    ensures Next(Error, ErrorResolved) == Ok(Scanning)
  {
    TableIsGraph(Error, t);
    TableIsGraph(Error, ErrorResolved);
  }

  /** The states after each of a run of triggers; a refused trigger leaves the state as it was. */
  function Visit(s: TrackerState, triggers: seq<Trigger>): (r: seq<TrackerState>)
    ensures |r| == |triggers|
    decreases |triggers|
  {
    if triggers == [] then []
    else
      var next := match Next(s, triggers[0]) case Ok(d) => d case Err(_) => s;
      [next] + Visit(next, triggers[1..])
  }

  /**
   * From any other state, a run of triggers reaches TRANSMITTING exactly when it holds
   * `to_transmitting`: none of the seven declared triggers ever leads there.
   */
  lemma {:induction false} TransmittingUnreachable(s: TrackerState, triggers: seq<Trigger>)
    requires s != Transmitting
    ensures Transmitting in Visit(s, triggers) <==> ToState(Transmitting) in triggers
    decreases |triggers|
  {
    if triggers != [] {
      TransmittingIsolated(s, triggers[0]);
      var next := match Next(s, triggers[0]) case Ok(d) => d case Err(_) => s;
      assert Visit(s, triggers) == [next] + Visit(next, triggers[1..]);
      assert triggers == [triggers[0]] + triggers[1..];
      if next != Transmitting {
        TransmittingUnreachable(next, triggers[1..]);
      } else {
        assert triggers[0] == ToState(Transmitting);
      }
    }
  }

  /** The demonstration run: initialize, Wi-Fi found, connection lost, an error, resolved. */
  lemma DemoTrace()
    ensures Visit(Initializing, [InitializeComplete, WifiAvailable, ConnectionFailed,
                                 ErrorOccured, ErrorResolved])
            == [Scanning, Connecting, Scanning, Error, Scanning]
  {
    var triggers := [InitializeComplete, WifiAvailable, ConnectionFailed, ErrorOccured, ErrorResolved];
    NamedEdges();
    ErrorFromEverywhere(Scanning);
    LeavingError(ErrorResolved);
    assert triggers[1..] == [WifiAvailable, ConnectionFailed, ErrorOccured, ErrorResolved];
    assert triggers[2..] == [ConnectionFailed, ErrorOccured, ErrorResolved];
    assert triggers[3..] == [ErrorOccured, ErrorResolved];
    assert triggers[4..] == [ErrorResolved];
  }

  /** The spellings of `ble_port` that switch the BLE side off. */
  predicate BleDisabled(blePort: Option<string>)
  {
    blePort.None? || blePort.value in ["none", "None", "NONE"]
  }

  const DEFAULT_WIFI_CHECK_INTERVAL: int := 60

  /**
   * `StateMachineTracker`: the state-machine fields (the tracker it derives from is not set
   * up). `pending_data` is an untyped list that nothing fills, so its items are a type
   * parameter.
   */
  class StateMachineTracker<Item> {
    var state: TrackerState
    var bleEnabled: bool
    var pendingData: seq<Item>
    var lastWifiCheck: int
    var wifiCheckInterval: int

    constructor (blePort: Option<string>, wifiCheckInterval: Option<int>)
      ensures state == Initializing
      ensures bleEnabled <==> !BleDisabled(blePort)
      ensures pendingData == [] && lastWifiCheck == 0
      ensures this.wifiCheckInterval == if wifiCheckInterval.Some? then wifiCheckInterval.value else DEFAULT_WIFI_CHECK_INTERVAL
    {
      bleEnabled := !BleDisabled(blePort);
      state := Initializing;
      pendingData := [];
      lastWifiCheck := 0;
      this.wifiCheckInterval := if wifiCheckInterval.Some? then wifiCheckInterval.value else DEFAULT_WIFI_CHECK_INTERVAL;
    }

    /** Calling a trigger method: move along the edge, or refuse and stay. */
    method Fire(t: Trigger) returns (r: Result<TrackerState>)
      modifies this`state
      ensures r == Next(old(state), t)
      ensures state == if r.Ok? then r.value else old(state)
    {
      r := Next(state, t);
      if r.Ok? {
        state := r.value;
      }
    }
  }
}
