/** The Bluetooth communicator singleton as a state machine.

    Every public operation, broadcast and looper dispatch is a pure step on
    `State`. Messages are posted to the communicator's own handler, whose
    queue keeps them in posting order; `HandleMessage` is the looper handing
    the oldest one to the handler, which appends received text to the held
    data and reports a callback action when a callback is set. A Java
    NullPointerException or IllegalThreadStateException that would escape
    a step is a `Failure` carrying the `Fault`. */
module BluetoothCommunicator {
  import opened Wrappers
  import opened Devices
  import opened Framer
  import opened Communicator

  // Message codes, which are also the callback action codes.
  const DataReceived: int := 1
  const DeviceFound: int := 2
  const ConnectionLost: int := 3
  const BluetoothNotEnabled: int := 4
  const DeviceConnected: int := 5
  const BluetoothNotSupported: int := 6
  const ConnectionFailed: int := 7
  const ConnectionClosed: int := 8
  const DiscoveryFinished: int := 9
  const ConnectionAttempt: int := 10

  /** The communicator's own handler, installed by its constructor. */
  const OwnHandler: HandlerId := 0

  /** The default Bluetooth adapter: enabled, scanning, and its bonded devices. */
  datatype Adapter = Adapter(enabled: bool, discovering: bool, bonded: seq<PeerDevice>)

  /** The socket streams of a connect thread: still being opened by the
      opening thread, open, or left null because opening failed. */
  datatype Streams = Opening | Open | OpenFailed

  /** The connect thread: the device it was made for, its streams, whether
      `start` was called, whether its read loop has ended, and the text its
      read loop has buffered so far. */
  datatype ConnectThread = ConnectThread(device: PeerDevice, streams: Streams, started: bool, ended: bool, pending: string)

  /** The data of a callback action: none, the held data, or the message object. */
  datatype ActionData = NoData | HeldData(records: seq<string>) | Object(obj: Payload)

  /** A callback action reported to the registered callback. */
  datatype CallbackAction = CallbackAction(action: int, data: ActionData)

  /** The exceptions that escape a step. */
  datatype Fault = NullAdapter | NullStream | NullConnectThread | ThreadAlreadyStarted

  /** The communicator: adapter (null when Bluetooth is unsupported), connect
      thread, connection flag, held data, whether a callback is set, the base
      communicator, the callback actions reported so far, and the buffers
      written to the output stream. */
  datatype State = State(
    adapter: Option<Adapter>,
    thread: Option<ConnectThread>,
    isConnected: bool,
    receivedData: seq<string>,
    hasCallback: bool,
    comm: CommunicatorState,
    delivered: seq<CallbackAction>,
    written: seq<seq<Byte>>)

  /** The messages waiting for the communicator's handler. */
  function Pending(s: State): seq<Message>
  {
    Queue(s.comm, OwnHandler)
  }

  /** Every received-data message carries text. */
  predicate TextPayloads(q: seq<Message>)
  {
    forall i :: 0 <= i < |q| ==> q[i].what == DataReceived ==> q[i].obj.Text?
  }

  /** The invariant every reachable state keeps: callbacks go to the own
      handler, and every queued received-data message carries text. */
  predicate Valid(s: State)
  {
    s.comm.handler == Some(OwnHandler) && TextPayloads(Pending(s))
  }

  /** Posts a message to the own handler. */
  function Publish(s: State, what: int, obj: Payload): (r: State)
    requires s.comm.handler == Some(OwnHandler)
    ensures Pending(r) == Pending(s) + [Message(what, obj)]
    ensures r.comm.handler == s.comm.handler
    ensures r == s.(comm := r.comm)
    ensures Valid(s) && (what == DataReceived ==> obj.Text?) ==> Valid(r)
  {
    s.(comm := SendCallbackMessage(s.comm, what, obj))
  }

  /** The private constructor: installs the own handler, takes the default
      adapter (a parameter here), no thread, nothing held, nothing queued. */
  function Construct(adapter: Option<Adapter>): (s: State)
    ensures Valid(s)
    ensures s.adapter == adapter && s.thread.None? && !s.isConnected && !s.hasCallback
    ensures s.receivedData == [] && Pending(s) == [] && s.delivered == [] && s.written == []
  {
    State(adapter, None, false, [], false, SetHandlerForCallback(NewCommunicator(), Some(OwnHandler)), [], [])
  }

  /** `isBluetoothEnabled`. */
  function IsBluetoothEnabled(s: State): (enabled: bool)
    ensures enabled <==> s.adapter.Some? && s.adapter.value.enabled
  {
    s.adapter.Some? && s.adapter.value.enabled
  }

  /** `isDiscovering`. */
  function IsDiscovering(s: State): (discovering: bool)
    ensures discovering <==> s.adapter.Some? && s.adapter.value.discovering
  {
    s.adapter.Some? && s.adapter.value.discovering
  }

  /** `setCallback`: a null callback is `false`. */
  function SetCallback(s: State, callback: bool): (r: State)
    ensures r == s.(hasCallback := callback)
  {
    s.(hasCallback := callback)
  }

  /** `connect` as written: without an adapter or with Bluetooth off it posts
      the matching event and answers false. Otherwise it asks the adapter to
      start discovery, which may or may not start (`started`), ignores that
      answer and returns true. */
  function Connect(s: State, started: bool): (r: (State, bool))
    requires Valid(s)
    ensures Valid(r.0)
    ensures r.1 <==> IsBluetoothEnabled(s)
    ensures s.adapter.None? ==>
      !r.1 && r.0 == Publish(s, BluetoothNotSupported, Null)
    ensures s.adapter.Some? && !s.adapter.value.enabled ==>
      !r.1 && r.0 == Publish(s, BluetoothNotEnabled, Null)
    ensures IsBluetoothEnabled(s) ==>
      && (IsDiscovering(r.0) <==> started)
      && r.0 == s.(adapter := Some(s.adapter.value.(discovering := started)))
    ensures IsBluetoothEnabled(s) && !started ==> r.1 && !IsDiscovering(r.0)
  {
    match s.adapter
    case None => (Publish(s, BluetoothNotSupported, Null), false)
    case Some(a) =>
      if !a.enabled then (Publish(s, BluetoothNotEnabled, Null), false)
      else (s.(adapter := Some(a.(discovering := started))), true)
  }

  /** `connect` as its documentation promises: true exactly when discovery
      started. The state is that of `Connect`. */
  function ConnectReportingStart(s: State, started: bool): (r: (State, bool))
    requires Valid(s)
    ensures Valid(r.0)
    ensures r.1 ==> IsDiscovering(r.0)
    ensures IsBluetoothEnabled(s) ==> (r.1 <==> IsDiscovering(r.0))
    ensures !IsBluetoothEnabled(s) ==> !r.1
    ensures r.0 == Connect(s, started).0
  {
    var c := Connect(s, started);
    (c.0, c.1 && started)
  }

  /** With Bluetooth on, a discovery that does not start is still reported
      as started by `connect` as written, but not by the documented one. */
  lemma ConnectReportsUnstartedDiscovery(s: State)
    requires Valid(s) && IsBluetoothEnabled(s)
    ensures Connect(s, false).1
    ensures !IsDiscovering(Connect(s, false).0)
    ensures !ConnectReportingStart(s, false).1
  {
  }

  /** `stopDiscovery`: cancels discovery; the adapter is dereferenced
      unguarded, so without one this is a NullPointerException. */
  function StopDiscovery(s: State): (r: Result<State, Fault>)
    ensures s.adapter.None? <==> r == Failure(NullAdapter)
    ensures r.Success? ==>
      && !IsDiscovering(r.value)
      && r.value == s.(adapter := Some(s.adapter.value.(discovering := false)))
  {
    match s.adapter
    case None => Failure(NullAdapter)
    case Some(a) =>
      var a' := if a.discovering then a.(discovering := false) else a;
      Success(s.(adapter := Some(a')))
  }

  /** `disconnect`: stops discovery, cancels and forgets the connect thread,
      then posts CONNECTION_CLOSED, whether or not anything was connected. */
  function Disconnect(s: State): (r: Result<State, Fault>)
    requires Valid(s)
    ensures s.adapter.None? <==> r.Failure?
    ensures r.Failure? ==> r.error == NullAdapter
    ensures r.Success? ==>
      && Valid(r.value)
      && r.value.thread.None?
      && !IsDiscovering(r.value)
      && Pending(r.value) == Pending(s) + [Message(ConnectionClosed, Null)]
      && r.value.isConnected == s.isConnected
      && r.value.receivedData == s.receivedData
      && r.value.delivered == s.delivered
      && r.value.written == s.written
      && r.value == s.(adapter := Some(s.adapter.value.(discovering := false)), thread := None, comm := r.value.comm)
  {
    match StopDiscovery(s)
    case Failure(e) => Failure(e)
    case Success(t) => Success(Publish(t.(thread := None), ConnectionClosed, Null))
  }

  /** `stopListen`: the device is ignored; it is `disconnect`. */
  function StopListen(s: State, device: Option<PeerDevice>): Result<State, Fault>
    requires Valid(s)
  {
    Disconnect(s)
  }

  /** `releaseData`: clears the held data. */
  function ReleaseData(s: State): (r: State)
    ensures r.receivedData == []
    ensures r == s.(receivedData := [])
  {
    s.(receivedData := [])
  }

  /** `sendData`: ignored without a connect thread; writes to the output
      stream otherwise. An IOException (`ioOk` false) is swallowed; a null
      output stream (the socket is still opening or failed to open) is a
      NullPointerException. */
  function SendData(s: State, data: seq<Byte>, ioOk: bool): (r: Result<State, Fault>)
    ensures s.thread.None? ==> r == Success(s)
    ensures s.thread.Some? && s.thread.value.streams != Open ==> r == Failure(NullStream)
    ensures s.thread.Some? && s.thread.value.streams == Open ==>
      r == Success(if ioOk then s.(written := s.written + [data]) else s)
  {
    match s.thread
    case None => Success(s)
    case Some(t) =>
      if t.streams != Open then Failure(NullStream)
      else if ioOk then Success(s.(written := s.written + [data]))
      else Success(s)
  }

  /** `startListen`: cancels any previous connect thread and creates a new
      one for `device`; creating it starts opening the socket. */
  function StartListen(s: State, device: PeerDevice): (r: State)
    ensures r.thread == Some(ConnectThread(device, Opening, false, false, []))
    ensures r == s.(thread := r.thread)
  {
    s.(thread := Some(ConnectThread(device, Opening, false, false, [])))
  }

  /** The socket-opening thread of the current connect thread runs: it posts
      CONNECTION_ATTEMPT, then opens the socket; on an IOException (`ok`
      false) it posts CONNECTION_FAILED and the streams stay null. Without a
      socket being opened nothing happens. */
  function OpenSocket(s: State, ok: bool): (r: State)
    requires Valid(s)
    ensures Valid(r)
    ensures !(s.thread.Some? && s.thread.value.streams == Opening) ==> r == s
    ensures s.thread.Some? && s.thread.value.streams == Opening ==>
      && r.thread == Some(s.thread.value.(streams := if ok then Open else OpenFailed))
      && Pending(r) == Pending(s) + (if ok then [Message(ConnectionAttempt, Null)]
                                     else [Message(ConnectionAttempt, Null), Message(ConnectionFailed, Null)])
      && r.receivedData == s.receivedData && r.isConnected == s.isConnected
      && r == s.(thread := r.thread, comm := r.comm)
  {
    match s.thread
    case None => s
    case Some(t) =>
      if t.streams != Opening then s
      else
        var s1 := Publish(s, ConnectionAttempt, Null);
        if ok then s1.(thread := Some(t.(streams := Open)))
        else Publish(s1, ConnectionFailed, Null).(thread := Some(t.(streams := OpenFailed)))
  }

  /** The socket opener as the CONNECTION_FAILED documentation describes it:
      a failed open also disables data listening, so the read loop of the
      connect thread is marked ended. A successful open is as written. */
  function OpenSocketDisablingListen(s: State, ok: bool): (r: State)
    requires Valid(s)
    ensures Valid(r)
    ensures Pending(r) == Pending(OpenSocket(s, ok))
    ensures ok ==> r == OpenSocket(s, ok)
    ensures !ok && s.thread.Some? && s.thread.value.streams == Opening ==>
      r.thread == Some(s.thread.value.(streams := OpenFailed, ended := true))
    ensures r == s.(thread := r.thread, comm := r.comm)
  {
    var o := OpenSocket(s, ok);
    if !ok && s.thread.Some? && s.thread.value.streams == Opening then
      o.(thread := Some(o.thread.value.(ended := true)))
    else o
  }

  /** As written, a failed open does not disable listening: the connect
      thread stays, link-up starts it, and its read loop runs on the null
      input stream and dies on a NullPointerException. */
  lemma FailedOpenStillListens(s: State, device: PeerDevice, chunk: string, framing: Framing)
    requires Valid(s)
    ensures var o := OpenSocket(StartListen(s, device), false);
      && AclConnected(o).Success?
      && Reading(AclConnected(o).value)
      && ReadAvailable(AclConnected(o).value, chunk, framing) == Failure(NullStream)
  {
  }

  /** With listening disabled on a failed open, a later link-up never reads,
      whatever chunks become available. */
  lemma FailedOpenStopsListening(s: State, device: PeerDevice, chunks: seq<string>, framing: Framing)
    requires Valid(s)
    ensures var o := OpenSocketDisablingListen(StartListen(s, device), false);
      && AclConnected(o).Success?
      && !Reading(AclConnected(o).value)
      && ReadAll(AclConnected(o).value, chunks, framing) == AclConnected(o)
  {
    var o := OpenSocketDisablingListen(StartListen(s, device), false);
    StoppedReadsNothing(AclConnected(o).value, chunks, framing);
  }

  /** ACTION_ACL_CONNECTED: marks the link up, posts DEVICE_CONNECTED and
      starts the connect thread, which fails without a thread or when it
      was already started. */
  function AclConnected(s: State): (r: Result<State, Fault>)
    requires Valid(s)
    ensures s.thread.None? <==> r == Failure(NullConnectThread)
    ensures s.thread.Some? && s.thread.value.started <==> r == Failure(ThreadAlreadyStarted)
    ensures r.Success? ==>
      && Valid(r.value)
      && r.value.isConnected
      && Pending(r.value) == Pending(s) + [Message(DeviceConnected, Null)]
      && r.value.thread == Some(s.thread.value.(started := true))
      && r.value == s.(isConnected := true, thread := r.value.thread, comm := r.value.comm)
  {
    var s1 := Publish(s.(isConnected := true), DeviceConnected, Null);
    match s.thread
    case None => Failure(NullConnectThread)
    case Some(t) =>
      if t.started then Failure(ThreadAlreadyStarted)
      else Success(s1.(thread := Some(t.(started := true))))
  }

  /** The connect thread's read loop runs iff it was started, has not ended
      and the socket-opening thread it joins has finished. */
  predicate Reading(s: State)
  {
    s.thread.Some? && s.thread.value.started && !s.thread.value.ended && s.thread.value.streams != Opening
  }

  /** The received-data messages for some records, in order. */
  function DataMessages(records: seq<string>): (ms: seq<Message>)
    ensures |ms| == |records|
    ensures forall i :: 0 <= i < |ms| ==> ms[i] == Message(DataReceived, Text(records[i]))
  {
    if |records| == 0 then []
    else DataMessages(records[..|records| - 1]) + [Message(DataReceived, Text(records[|records| - 1]))]
  }

  /** One pass of the read loop with `chunk` available: the line framer step
      on the thread's buffer, posting DATA_RECEIVED for each record it
      closes (the loop as written closes at most one). With null streams
      (opening failed) the loop dies on a NullPointerException; when the
      loop does not run, nothing happens. */
  function ReadAvailable(s: State, chunk: string, framing: Framing): (r: Result<State, Fault>)
    requires Valid(s)
    ensures r.Success? ==> Valid(r.value)
    ensures !Reading(s) ==> r == Success(s)
    ensures Reading(s) && s.thread.value.streams == OpenFailed ==> r == Failure(NullStream)
    ensures Reading(s) && s.thread.value.streams == Open ==>
      var f := FrameWith(framing, s.thread.value.pending, chunk);
      && r.Success?
      && Reading(r.value)
      && r.value.thread == Some(s.thread.value.(pending := f.pending))
      && Pending(r.value) == Pending(s) + DataMessages(f.records)
      && r.value.receivedData == s.receivedData
      && r.value == s.(thread := r.value.thread, comm := r.value.comm)
  {
    if !Reading(s) then Success(s)
    else
      var t := s.thread.value;
      if t.streams == OpenFailed then Failure(NullStream)
      else
        var f := FrameWith(framing, t.pending, chunk);
        Success(PublishAll(s.(thread := Some(t.(pending := f.pending))), f.records))
  }

  /** Posts DATA_RECEIVED for each record, in order. */
  function PublishAll(s: State, records: seq<string>): (r: State)
    requires Valid(s)
    ensures Valid(r)
    ensures r == s.(comm := r.comm)
    ensures Pending(r) == Pending(s) + DataMessages(records)
    decreases |records|
  {
    if |records| == 0 then s
    else
      var init := records[..|records| - 1];
      var last := records[|records| - 1];
      Publish(PublishAll(s, init), DataReceived, Text(last))
  }

  /** An IOException in the read loop on open streams ends the loop; nothing
      is posted. With null streams the loop cannot get that far: polling
      them is a NullPointerException, which the loop does not catch. */
  function ReadFails(s: State): (r: Result<State, Fault>)
    ensures !Reading(s) ==> r == Success(s)
    ensures Reading(s) && s.thread.value.streams == OpenFailed ==> r == Failure(NullStream)
    ensures Reading(s) && s.thread.value.streams == Open ==>
      && r.Success?
      && !Reading(r.value)
      && r.value == s.(thread := Some(s.thread.value.(ended := true)))
  {
    if !Reading(s) then Success(s)
    else if s.thread.value.streams == OpenFailed then Failure(NullStream)
    else Success(s.(thread := Some(s.thread.value.(ended := true))))
  }

  /** Once the read loop on open streams has failed, no later chunk is read. */
  lemma ReadFailsEndsReading(s: State, chunks: seq<string>, framing: Framing)
    requires Valid(s) && Reading(s) && s.thread.value.streams == Open
    ensures ReadFails(s).Success?
    ensures ReadAll(ReadFails(s).value, chunks, framing) == ReadFails(s)
  {
    StoppedReadsNothing(ReadFails(s).value, chunks, framing);
  }

  /** A read loop that is not running reads nothing, whatever is available. */
  lemma {:induction false} StoppedReadsNothing(s: State, chunks: seq<string>, framing: Framing)
    requires Valid(s) && !Reading(s)
    ensures ReadAll(s, chunks, framing) == Success(s)
    decreases |chunks|
  {
    if |chunks| > 0 {
      StoppedReadsNothing(s, chunks[..|chunks| - 1], framing);
    }
  }

  /** ACTION_ACL_DISCONNECTED: marks the link down, posts CONNECTION_LOST
      and calls `stopListen`. */
  function AclDisconnected(s: State): (r: Result<State, Fault>)
    requires Valid(s)
    ensures s.adapter.None? <==> r.Failure?
    ensures r.Failure? ==> r.error == NullAdapter
    ensures r.Success? ==>
      && Valid(r.value)
      && !r.value.isConnected
      && !IsDiscovering(r.value)
      && Pending(r.value) == Pending(s) + [Message(ConnectionLost, Null), Message(ConnectionClosed, Null)]
      && r.value == s.(isConnected := false, adapter := Some(s.adapter.value.(discovering := false)),
                       thread := None, comm := r.value.comm)
  {
    StopListen(Publish(s.(isConnected := false), ConnectionLost, Null), None)
  }

  /** ACTION_FOUND: posts DEVICE_FOUND with the device. */
  function DeviceFoundBroadcast(s: State, device: PeerDevice): (r: State)
    requires Valid(s)
    ensures Valid(r)
    ensures Pending(r) == Pending(s) + [Message(DeviceFound, Device(device))]
    ensures r == s.(comm := r.comm)
  {
    Publish(s, DeviceFound, Device(device))
  }

  /** ACTION_DISCOVERY_FINISHED: the adapter has stopped scanning; posts
      DISCOVERY_FINISHED. */
  function DiscoveryFinishedBroadcast(s: State): (r: State)
    requires Valid(s)
    ensures Valid(r)
    ensures !IsDiscovering(r)
    ensures Pending(r) == Pending(s) + [Message(DiscoveryFinished, Null)]
    ensures r.thread == s.thread && r.receivedData == s.receivedData
    ensures r.adapter.Some? <==> s.adapter.Some?
    ensures s.adapter.Some? ==> r.adapter.value == s.adapter.value.(discovering := false)
    ensures r == s.(adapter := r.adapter, comm := r.comm)
  {
    var s1 := match s.adapter
      case None => s
      case Some(a) => s.(adapter := Some(a.(discovering := false)));
    Publish(s1, DiscoveryFinished, Null)
  }

  /** `getPairedDevices`: null without an adapter (after posting
      BLUETOOTH_NOT_SUPPORTED) or when nothing is bonded; the bonded devices
      otherwise. */
  function GetPairedDevices(s: State): (r: (State, Option<seq<PeerDevice>>))
    requires Valid(s)
    ensures Valid(r.0)
    ensures s.adapter.None? ==> r.1.None? && r.0 == Publish(s, BluetoothNotSupported, Null)
    ensures s.adapter.Some? ==> r.0 == s
    ensures s.adapter.Some? && s.adapter.value.bonded == [] ==> r.1.None?
    ensures s.adapter.Some? && s.adapter.value.bonded != [] ==>
      && r.1.Some?
      && |r.1.value| == |s.adapter.value.bonded|
      && multiset(r.1.value) == multiset(s.adapter.value.bonded)
    ensures r.1.Some? ==> |r.1.value| > 0
  {
    match s.adapter
    case None => (Publish(s, BluetoothNotSupported, Null), None)
    case Some(a) => (s, if |a.bonded| == 0 then None else Some(a.bonded))
  }

  /** What the handler does with one message: a received text is appended
      to the held data and reported with the held data; a found device is
      reported with the device; anything else is reported with no data.
      Nothing is reported without a callback. */
  function Dispatch(s: State, m: Message): (r: State)
    requires m.what == DataReceived ==> m.obj.Text?
    ensures r.comm == s.comm && r.thread == s.thread && r.isConnected == s.isConnected
    ensures r.receivedData == s.receivedData + (if m.what == DataReceived then [m.obj.text] else [])
    ensures r.delivered == s.delivered + (if s.hasCallback then [ActionFor(r.receivedData, m)] else [])
    ensures r == s.(receivedData := r.receivedData, delivered := r.delivered)
  {
    var s1 := if m.what == DataReceived then s.(receivedData := s.receivedData + [m.obj.text]) else s;
    if s.hasCallback then s1.(delivered := s1.delivered + [ActionFor(s1.receivedData, m)]) else s1
  }

  /** The action reported for a message, given the held data after it was taken in. */
  function ActionFor(held: seq<string>, m: Message): CallbackAction
  {
    if m.what == DataReceived then CallbackAction(m.what, HeldData(held))
    else if m.what == DeviceFound then CallbackAction(m.what, Object(m.obj))
    else CallbackAction(m.what, NoData)
  }

  /** The looper hands the oldest queued message to the handler. */
  function HandleMessage(s: State): (r: State)
    requires Valid(s)
    ensures Valid(r)
    ensures Pending(s) == [] ==> r == s
    ensures Pending(s) != [] ==>
      var m := Pending(s)[0];
      && Pending(r) == Pending(s)[1..]
      && r.receivedData == s.receivedData + (if m.what == DataReceived then [m.obj.text] else [])
      && |r.delivered| == |s.delivered| + (if s.hasCallback then 1 else 0)
      && r.delivered == s.delivered + (if s.hasCallback then [ActionFor(r.receivedData, m)] else [])
      && r.thread == s.thread && r.isConnected == s.isConnected && r.hasCallback == s.hasCallback
      && r == s.(comm := r.comm, receivedData := r.receivedData, delivered := r.delivered)
  {
    match TakeNext(s.comm, OwnHandler)
    case None => s
    case Some((m, comm)) =>
      assert Pending(s) == [m] + Queue(comm, OwnHandler);
      assert m.what == DataReceived ==> m.obj.Text? by {
        assert Pending(s)[0] == m;
      }
      var r := Dispatch(s.(comm := comm), m);
      assert Pending(r) == Pending(s)[1..];
      r
  }

  // ---------------------------------------------------------------------
  // Properties across several steps
  // ---------------------------------------------------------------------

  /** `disconnect` is not idempotent in its events: each call posts its own
      CONNECTION_CLOSED. */
  lemma DisconnectTwice(s: State)
    requires Valid(s) && s.adapter.Some?
    ensures Disconnect(s).Success?
    ensures Disconnect(Disconnect(s).value).Success?
    ensures Pending(Disconnect(Disconnect(s).value).value) ==
            Pending(s) + [Message(ConnectionClosed, Null), Message(ConnectionClosed, Null)]
  {
    var d1 := Disconnect(s).value;
    assert Pending(d1) == Pending(s) + [Message(ConnectionClosed, Null)];
  }

  /** After `disconnect` there is no connect thread, so `sendData` does nothing. */
  lemma DisconnectThenSendIsNoop(s: State, data: seq<Byte>, ioOk: bool)
    requires Valid(s) && s.adapter.Some?
    ensures Disconnect(s).Success?
    ensures SendData(Disconnect(s).value, data, ioOk) == Success(Disconnect(s).value)
  {
  }

  /** Link-down: the connection flag drops, CONNECTION_LOST is posted and then
      CONNECTION_CLOSED, and the connect thread is gone. */
  lemma LinkDown(s: State)
    requires Valid(s) && s.adapter.Some?
    ensures AclDisconnected(s).Success?
    ensures var r := AclDisconnected(s).value;
      && !r.isConnected
      && r.thread.None?
      && Pending(r) == Pending(s) + [Message(ConnectionLost, Null), Message(ConnectionClosed, Null)]
  {
    var s1 := Publish(s.(isConnected := false), ConnectionLost, Null);
    assert Pending(s1) == Pending(s) + [Message(ConnectionLost, Null)];
    var r := Disconnect(s1).value;
    assert Pending(r) == Pending(s1) + [Message(ConnectionClosed, Null)];
  }

  /** Link-up after a successful socket open: the connection flag is set,
      CONNECTION_ATTEMPT then DEVICE_CONNECTED are posted, and the read loop
      runs on open streams with an empty buffer. */
  lemma LinkUp(s: State, device: PeerDevice)
    requires Valid(s)
    ensures var s2 := OpenSocket(StartListen(s, device), true);
      && AclConnected(s2).Success?
      && var r := AclConnected(s2).value;
      && r.isConnected
      && Reading(r)
      && r.thread == Some(ConnectThread(device, Open, true, false, []))
      && Pending(r) == Pending(s) + [Message(ConnectionAttempt, Null), Message(DeviceConnected, Null)]
  {
    var s1 := StartListen(s, device);
    assert Pending(s1) == Pending(s);
    var s2 := OpenSocket(s1, true);
    assert Pending(s2) == Pending(s) + [Message(ConnectionAttempt, Null)];
  }

  /** The read loop over a sequence of available chunks. */
  function ReadAll(s: State, chunks: seq<string>, framing: Framing): (r: Result<State, Fault>)
    requires Valid(s)
    ensures r.Success? ==> Valid(r.value)
    decreases |chunks|
  {
    if |chunks| == 0 then Success(s)
    else
      match ReadAll(s, chunks[..|chunks| - 1], framing)
      case Failure(e) => Failure(e)
      case Success(t) => ReadAvailable(t, chunks[|chunks| - 1], framing)
  }

  /** Received-data messages of consecutive record runs. */
  lemma DataMessagesAppend(a: seq<string>, b: seq<string>)
    ensures DataMessages(a + b) == DataMessages(a) + DataMessages(b)
  {
  }

  /** The read loop posts exactly the records of the line framer, in order,
      and keeps the framer's pending text in the thread's buffer. */
  lemma {:induction false} ReadAllFrames(s: State, chunks: seq<string>, framing: Framing)
    requires Valid(s) && Reading(s) && s.thread.value.streams == Open
    ensures ReadAll(s, chunks, framing).Success?
    ensures var r := ReadAll(s, chunks, framing).value;
      var framed := Feed(framing, s.thread.value.pending, chunks);
      && Reading(r)
      && r.thread == Some(s.thread.value.(pending := framed.pending))
      && Pending(r) == Pending(s) + DataMessages(framed.records)
      && r.receivedData == s.receivedData
    decreases |chunks|
  {
    if |chunks| == 0 {
      assert DataMessages([]) == [];
    } else {
      var prefix := chunks[..|chunks| - 1];
      ReadAllFrames(s, prefix, framing);
      var before := Feed(framing, s.thread.value.pending, prefix);
      var f := FrameWith(framing, before.pending, chunks[|chunks| - 1]);
      DataMessagesAppend(before.records, f.records);
      AppendAssoc(Pending(s), DataMessages(before.records), DataMessages(f.records));
    }
  }

  /** The texts of the received-data messages of a queue, in queue order. */
  function Texts(q: seq<Message>): seq<string>
  {
    if |q| == 0 then []
    else (if q[0].what == DataReceived && q[0].obj.Text? then [q[0].obj.text] else []) + Texts(q[1..])
  }

  /** `Texts` of a concatenation. */
  lemma {:induction false} TextsAppend(a: seq<Message>, b: seq<Message>)
    ensures Texts(a + b) == Texts(a) + Texts(b)
    decreases |a|
  {
    if |a| == 0 {
      assert a + b == b;
    } else {
      assert (a + b)[1..] == a[1..] + b;
      TextsAppend(a[1..], b);
    }
  }

  /** The texts of the messages posted for some records are those records. */
  lemma {:induction false} TextsOfDataMessages(records: seq<string>)
    ensures Texts(DataMessages(records)) == records
    decreases |records|
  {
    if |records| > 0 {
      var init := records[..|records| - 1];
      var m := Message(DataReceived, Text(records[|records| - 1]));
      TextsOfDataMessages(init);
      TextsAppend(DataMessages(init), [m]);
      assert Texts([m]) == [m.obj.text] + Texts([]);
      assert records == init + [records[|records| - 1]];
    }
  }

  /** The looper handing over every queued message. */
  function DrainAll(s: State): (r: State)
    requires Valid(s)
    ensures Valid(r)
    decreases |Pending(s)|
  {
    if Pending(s) == [] then s else DrainAll(HandleMessage(s))
  }

  /** The actions a callback is told of when the queue `q` is handled in
      order from held data `held`: the i-th carries the i-th message's code,
      with the held data as it stands once that message is taken in for
      received data, the found device for DEVICE_FOUND, and nothing else. */
  function Reports(held: seq<string>, q: seq<Message>): (acts: seq<CallbackAction>)
    ensures |acts| == |q|
    ensures forall i :: 0 <= i < |q| ==> acts[i].action == q[i].what
    ensures forall i :: 0 <= i < |q| && q[i].what == DataReceived ==>
      acts[i].data == HeldData(held + Texts(q[..i + 1]))
    ensures forall i :: 0 <= i < |q| && q[i].what == DeviceFound ==> acts[i].data == Object(q[i].obj)
    ensures forall i :: 0 <= i < |q| && q[i].what != DataReceived && q[i].what != DeviceFound ==>
      acts[i].data == NoData
  {
    seq(|q|, i requires 0 <= i < |q| => ActionFor(held + Texts(q[..i + 1]), q[i]))
  }

  /** `Reports` of a non-empty queue: the first message's action, then the
      rest from the held data that message leaves. */
  lemma ReportsCons(held: seq<string>, q: seq<Message>)
    requires |q| > 0
    ensures Reports(held, q) ==
      [ActionFor(held + Texts(q[..1]), q[0])] + Reports(held + Texts(q[..1]), q[1..])
  {
    var first := Texts(q[..1]);
    var a := Reports(held, q);
    var b := [ActionFor(held + first, q[0])] + Reports(held + first, q[1..]);
    forall i | 1 <= i < |q|
      ensures a[i] == b[i]
    {
      assert q[..i + 1] == q[..1] + q[1..][..i];
      TextsAppend(q[..1], q[1..][..i]);
      AppendAssoc(held, first, Texts(q[1..][..i]));
      assert b[i] == Reports(held + first, q[1..])[i - 1];
    }
  }

  /** Draining the queue appends the queued texts to the held data, in queue
      order, keeps every earlier record and every earlier action, and, when
      a callback is set, reports one action per queued message as `Reports`
      describes. */
  lemma {:induction false} DrainAppendsTexts(s: State)
    requires Valid(s)
    ensures Pending(DrainAll(s)) == []
    ensures DrainAll(s).receivedData == s.receivedData + Texts(Pending(s))
    ensures DrainAll(s).delivered ==
      s.delivered + (if s.hasCallback then Reports(s.receivedData, Pending(s)) else [])
    ensures |DrainAll(s).delivered| == |s.delivered| + (if s.hasCallback then |Pending(s)| else 0)
    decreases |Pending(s)|
  {
    var q := Pending(s);
    if q == [] {
      assert s.receivedData + Texts(q) == s.receivedData;
    } else {
      var h := HandleMessage(s);
      var first := if q[0].what == DataReceived then [q[0].obj.text] else [];
      assert h.receivedData == s.receivedData + first;
      assert Pending(h) == q[1..];
      DrainAppendsTexts(h);
      assert DrainAll(s) == DrainAll(h);
      assert Texts(q) == first + Texts(q[1..]) && Texts(q[..1]) == first by {
        assert q[0].what == DataReceived ==> q[0].obj.Text?;
        assert Texts(q[..1]) == first + Texts(q[..1][1..]);
      }
      AppendAssoc(s.receivedData, first, Texts(q[1..]));
      if s.hasCallback {
        ReportsCons(s.receivedData, q);
        AppendAssoc(s.delivered, [ActionFor(h.receivedData, q[0])], Reports(h.receivedData, q[1..]));
      }
    }
  }

  /** Concatenation regrouped. */
  lemma AppendAssoc<T>(a: seq<T>, b: seq<T>, c: seq<T>)
    ensures (a + b) + c == a + (b + c)
  {
  }

  /** End to end: with nothing queued, the chunks read by a running connect
      thread end up, once the looper has caught up, as the framer's records
      appended to the held data. */
  lemma RecordsReachHeldData(s: State, chunks: seq<string>, framing: Framing)
    requires Valid(s) && Reading(s) && s.thread.value.streams == Open && Pending(s) == []
    ensures ReadAll(s, chunks, framing).Success?
    ensures DrainAll(ReadAll(s, chunks, framing).value).receivedData ==
            s.receivedData + Feed(framing, s.thread.value.pending, chunks).records
  {
    ReadAllFrames(s, chunks, framing);
    var r := ReadAll(s, chunks, framing).value;
    var records := Feed(framing, s.thread.value.pending, chunks).records;
    assert Pending(r) == DataMessages(records);
    DrainAppendsTexts(r);
    TextsOfDataMessages(records);
  }

  /** With the intended framer, the held data depends only on the bytes read,
      not on how they arrived in chunks. */
  lemma HeldDataIgnoresChunking(s: State, chunks: seq<string>)
    requires Valid(s) && Reading(s) && s.thread.value.streams == Open && Pending(s) == []
    requires Delimiter !in s.thread.value.pending
    ensures ReadAll(s, chunks, Intended).Success?
    ensures DrainAll(ReadAll(s, chunks, Intended).value).receivedData ==
            s.receivedData + FrameChunk(s.thread.value.pending, Concat(chunks)).records
  {
    RecordsReachHeldData(s, chunks, Intended);
    ChunkingInvariant(s.thread.value.pending, chunks);
  }
}
