/** The Bluetooth session of the watch activity that connects straight to a PC by its
    MAC address: the connect guards, the connection coroutine, sending, disconnecting
    and closing the socket. Permission, adapter, device lookup, socket and write
    outcomes are inputs; each coroutine launch is a queued task that runs later. */
module DirectSession {
  import opened Wrappers
  import opened BtLink

  const TARGET_PC_ADDRESS := "8C:88:4B:26:8A:36"

  /** The status texts. */
  const WAITING := "대기 중"
  const ALREADY_CONNECTED := "이미 연결됨"
  const NO_PERMISSION := "권한 없음"
  const ADAPTER_ERROR := "블루투스 오류"
  const ENABLE_NEEDED := "블루투스 활성화 필요"
  const ENABLE_PERMISSION_ERROR := "권한 오류"
  const ENABLE_ERROR := "오류 발생"
  const DEVICE_PERMISSION_ERROR := "권한 오류 (기기)"
  const BAD_ADDRESS := "잘못된 PC 주소"
  const DEVICE_ERROR := "기기 접근 오류"
  const CONNECTING := "연결 시도 중: "
  const CONNECTED := "연결 성공"
  const FAILED := "연결 실패: "
  const LOST_BEFORE_SEND := "연결 끊김 (전송 시도)"
  const LOST_ON_WRITE := "연결 끊김 (전송 오류)"
  const DISCONNECTED := "연결 끊김"
  const LOST := "끊김"

  /** The activity's fields (the stream field names the socket whose stream it is),
      the platform's sockets, the queued coroutines, and the messages written so far. */
  datatype Session = Session(
    socket: Option<SocketId>,
    stream: Option<SocketId>,
    job: Option<JobId>,
    nextJob: JobId,
    isConnecting: bool,
    status: string,
    link: Link,
    tasks: seq<Task<string>>,
    written: seq<string>)

  const Initial: Session := Session(None, None, None, 0, false, WAITING, NoSockets, [], [])

  /** Stream and socket are held together, every socket held or known was created, and
      a connection attempt is queued, for the current job, exactly while `isConnecting`
      is set. */
  predicate Valid(s: Session) {
    LinkValid(s.link)
    && s.stream == s.socket
    && (s.socket.Some? ==> s.socket.value < s.link.next)
    && ConnectCount(s.tasks) == (if s.isConnecting then 1 else 0)
    && OwnedBy(s.tasks, s.job)
  }

  lemma InitialValid()
    ensures Valid(Initial)
  {
  }

  /** What `enable Bluetooth` request launching does when the adapter is off. */
  datatype EnableRequest = RequestShown | RequestSecurityError | RequestError

  /** The adapter: absent, switched off, or on. */
  datatype Adapter = NoAdapter | Disabled(request: EnableRequest) | Enabled

  /** `checkBluetoothEnabled`: whether to go on, and the status it leaves. */
  function CheckEnabled(a: Adapter, status: string): (r: (bool, string))
    ensures r.0 <==> a.Enabled?
    ensures a.Enabled? ==> r.1 == status
    ensures a.NoAdapter? ==> r.1 == ADAPTER_ERROR
    ensures a == Disabled(RequestShown) ==> r.1 == ENABLE_NEEDED
    ensures a == Disabled(RequestSecurityError) ==> r.1 == ENABLE_PERMISSION_ERROR
    ensures a == Disabled(RequestError) ==> r.1 == ENABLE_ERROR
  {
    match a
    case NoAdapter => (false, ADAPTER_ERROR)
    case Enabled => (true, status)
    case Disabled(RequestShown) => (false, ENABLE_NEEDED)
    case Disabled(RequestSecurityError) => (false, ENABLE_PERMISSION_ERROR)
    case Disabled(RequestError) => (false, ENABLE_ERROR)
  }

  /** What `getRemoteDevice(TARGET_PC_ADDRESS)` gives: a device (its name, and whether
      reading the name is refused), or one of three exceptions. */
  datatype RemoteDevice =
    | Found(name: Option<string>, nameRefused: bool)
    | LookupSecurityError
    | LookupBadAddress
    | LookupError

  /** The name used in status texts: the device name, its address when reading the name
      is refused, "Unknown" when it has none. The refused case is the `catch` of the
      initiating function; `ConnectToTargetPC` never gets that far with such a device,
      because its log line reads the name first, outside any `try`. */
  function DeviceName(d: RemoteDevice): (r: string)
    requires d.Found?
    ensures d.nameRefused ==> r == TARGET_PC_ADDRESS
    ensures !d.nameRefused ==> r == d.name.GetOr("Unknown")
  {
    if d.nameRefused then TARGET_PC_ADDRESS else d.name.GetOr("Unknown")
  }

  /** `initiateConnectionWithDevice`: unless permission is missing or an attempt is
      running, marks the session connecting, cancels the previous job and launches a new
      one. */
  function Initiate(s: Session, permission: bool, name: string): (r: Session)
    ensures !permission || s.isConnecting ==> r == s
    ensures permission && !s.isConnecting ==>
      r.isConnecting && r.status == CONNECTING + name
      && r.job == Some(s.nextJob) && r.nextJob == s.nextJob + 1
      && |r.tasks| > 0 && r.tasks[|r.tasks| - 1] == Connect(s.nextJob, name)
      && (forall t :: t in r.tasks[..|r.tasks| - 1] ==> t in s.tasks && !(t.Connect? && s.job == Some(t.job)))
      && (forall t :: t in s.tasks && !(t.Connect? && s.job == Some(t.job)) ==> t in r.tasks)
    ensures r.socket == s.socket && r.stream == s.stream && r.link == s.link && r.written == s.written
  {
    if !permission || s.isConnecting then s
    else
      var cancelled := CancelJob(s.tasks, s.job);
      assert (cancelled + [Connect(s.nextJob, name)])[..|cancelled|] == cancelled;
      s.(status := CONNECTING + name, isConnecting := true,
         job := Some(s.nextJob), nextJob := s.nextJob + 1,
         tasks := cancelled + [Connect(s.nextJob, name)])
  }

  /** Not connecting, not connected, and permission granted: the first three guards of
      `connectToTargetPC` let the request through. */
  predicate PastGuards(s: Session, permission: bool) {
    !s.isConnecting && !IsConnected(s.link, s.socket) && permission
  }

  /** `connectToTargetPC`: the guards in order (attempt running, already connected,
      permission, adapter, device lookup), then a connection attempt. A device whose name
      may not be read makes the log line before the attempt throw `SecurityException`
      out of the handler: the handler ends there and the session is as it was. */
  function ConnectToTargetPC(s: Session, permission: bool, adapter: Adapter, device: RemoteDevice): (r: Session)
    ensures s.isConnecting ==> r == s
    ensures !s.isConnecting && IsConnected(s.link, s.socket) ==> r == s.(status := ALREADY_CONNECTED)
    ensures !s.isConnecting && !IsConnected(s.link, s.socket) && !permission ==> r == s.(status := NO_PERMISSION)
    ensures PastGuards(s, permission) && !adapter.Enabled? ==> r == s.(status := CheckEnabled(adapter, s.status).1)
    ensures PastGuards(s, permission) && adapter.Enabled? && device == LookupSecurityError
      ==> r == s.(status := DEVICE_PERMISSION_ERROR)
    ensures PastGuards(s, permission) && adapter.Enabled? && device == LookupBadAddress
      ==> r == s.(status := BAD_ADDRESS)
    ensures PastGuards(s, permission) && adapter.Enabled? && device == LookupError
      ==> r == s.(status := DEVICE_ERROR)
    ensures PastGuards(s, permission) && adapter.Enabled? && device.Found? && device.nameRefused ==> r == s
    ensures PastGuards(s, permission) && adapter.Enabled? && device.Found? && !device.nameRefused
      ==> r == Initiate(s, true, device.name.GetOr("Unknown"))
    ensures r.isConnecting != s.isConnecting ==>
      permission && adapter.Enabled? && device.Found? && !device.nameRefused
    ensures r.socket == s.socket && r.stream == s.stream && r.link == s.link && r.written == s.written
  {
    if s.isConnecting then s
    else if IsConnected(s.link, s.socket) then s.(status := ALREADY_CONNECTED)
    else if !permission then s.(status := NO_PERMISSION)
    else
      var (enabled, status) := CheckEnabled(adapter, s.status);
      if !enabled then s.(status := status)
      else match device
        case Found(_, true) => s
        case Found(_, false) => Initiate(s, permission, DeviceName(device))
        case LookupSecurityError => s.(status := DEVICE_PERMISSION_ERROR)
        case LookupBadAddress => s.(status := BAD_ADDRESS)
        case LookupError => s.(status := DEVICE_ERROR)
  }

  /** `closeSocket`: unless both fields are null, closes the stream and then the socket,
      each in its own `try`, so an exception from one close is logged and the other still
      runs; both fields end null. */
  function CloseSocket(s: Session, fails: CloseFailures): (r: Session)
    ensures r.socket.None? && r.stream.None?
    ensures s.socket.None? && s.stream.None? ==> r == s
    ensures s.stream.Some? ==> s.stream.value in r.link.streamCloses
    ensures s.socket.Some? ==> s.socket.value in r.link.socketCloses && s.socket.value !in r.link.connected
    ensures r == s.(socket := None, stream := None, link := r.link)
  {
    if s.socket.None? && s.stream.None? then s
    else
      var l1 := if s.stream.Some? then CloseStreamOf(s.link, s.stream.value) else s.link;
      var l2 := if s.socket.Some? then CloseSocketOf(l1, s.socket.value) else l1;
      s.(socket := None, stream := None, link := l2)
  }

  /** `sendData`: without a stream or a connected socket nothing is queued, and a status
      that still says connected becomes "lost on send"; otherwise a write is queued. */
  function SendData(s: Session, message: string): (r: Session)
    ensures s.stream.None? || !IsConnected(s.link, s.socket) ==>
      r.tasks == s.tasks
      && r.status == (if StartsWith(s.status, CONNECTED) then LOST_BEFORE_SEND else s.status)
    ensures s.stream.Some? && IsConnected(s.link, s.socket) ==>
      r.tasks == s.tasks + [Send(message)] && r.status == s.status
    ensures r == s.(tasks := r.tasks, status := r.status)
  {
    if s.stream.None? || !IsConnected(s.link, s.socket) then
      if StartsWith(s.status, CONNECTED) then s.(status := LOST_BEFORE_SEND) else s
    else s.(tasks := s.tasks + [Send(message)])
  }

  /** The text after "연결 실패: ", by exception type. */
  function ErrorMessage(e: ConnectError): string {
    match e
    case IoError(m) => "IO 오류 (" + m + ")"
    case SecurityError => "권한 오류 (연결)"
    case OtherError(c) => "연결 실패 (" + c + ")"
  }

  /** The queued connection attempt `k` runs. On success the new socket and its stream
      are stored together, the status names the device, `isConnecting` is cleared and a
      greeting (`hello`, built from the name and the clock) is sent. On failure the
      status names the error, `isConnecting` is cleared and `closeSocket` runs on the
      fields; a socket created but not connected was never stored. */
  function RunConnect(s: Session, k: nat, outcome: ConnectOutcome, hello: string, fails: CloseFailures): (r: Session)
    requires k < |s.tasks| && s.tasks[k].Connect?
    ensures !r.isConnecting
    ensures outcome.Connected? ==>
      r.socket == Some(s.link.next) && r.stream == Some(s.link.next) && IsConnected(r.link, r.socket)
      && r.status == CONNECTED + ": " + s.tasks[k].target
      && r.tasks == RemoveAt(s.tasks, k) + [Send(hello)]
    ensures !outcome.Connected? ==>
      r.socket.None? && r.stream.None? && r.status == FAILED + ErrorMessage(outcome.err)
      && r.tasks == RemoveAt(s.tasks, k)
    ensures r.written == s.written && r.job == s.job && r.nextJob == s.nextJob
  {
    var name := s.tasks[k].target;
    var s1 := s.(tasks := RemoveAt(s.tasks, k));
    match outcome
    case Connected =>
      var (id, l) := Create(s1.link);
      SendData(s1.(link := ConnectOf(l, id), socket := Some(id), stream := Some(id),
                   status := CONNECTED + ": " + name, isConnecting := false), hello)
    case CreateFailed(e) =>
      CloseSocket(s1.(status := FAILED + ErrorMessage(e), isConnecting := false), fails)
    case ConnectFailed(e) =>
      var (_, l) := Create(s1.link);
      CloseSocket(s1.(link := l, status := FAILED + ErrorMessage(e), isConnecting := false), fails)
  }

  /** The queued write `k` runs: with no stream it does nothing; a write that succeeds
      records the message; a failing write closes the socket and reports the loss. */
  function RunSend(s: Session, k: nat, writeFails: bool, fails: CloseFailures): (r: Session)
    requires k < |s.tasks| && s.tasks[k].Send?
    ensures r.tasks == RemoveAt(s.tasks, k) && r.isConnecting == s.isConnecting && r.job == s.job
    ensures s.stream.Some? && !writeFails ==> r.written == s.written + [s.tasks[k].message]
    ensures s.stream.None? || writeFails ==> r.written == s.written
    ensures s.stream.Some? && writeFails ==>
      r.socket.None? && r.stream.None? && r.status == LOST_ON_WRITE
  {
    var s1 := s.(tasks := RemoveAt(s.tasks, k));
    if s1.stream.None? then s1
    else if !writeFails then s1.(written := s1.written + [s.tasks[k].message])
    else CloseSocket(s1, fails).(status := LOST_ON_WRITE)
  }

  /** `disconnect`: cancels the job, closes socket and stream, then reports the
      disconnection unless the status already says the link was lost, and clears
      `isConnecting`. */
  function Disconnect(s: Session, fails: CloseFailures): (r: Session)
    ensures r.socket.None? && r.stream.None? && !r.isConnecting
    ensures forall t :: t in r.tasks ==> !(t.Connect? && s.job == Some(t.job))
    ensures forall t :: t in s.tasks && !(t.Connect? && s.job == Some(t.job)) ==> t in r.tasks
    ensures Contains(r.status, LOST)
    ensures r.written == s.written && r.job == s.job
  {
    var s1 := s.(tasks := CancelJob(s.tasks, s.job));
    var s2 := CloseSocket(s1, fails);
    var s3 := if s2.isConnecting || IsConnected(s2.link, s2.socket) || !Contains(s2.status, LOST)
              then s2.(status := DISCONNECTED) else s2;
    assert Contains(DISCONNECTED, LOST) by { ContainsAt(DISCONNECTED, LOST, 3); }
    s3.(isConnecting := false)
  }

  /** `onDestroy` calls `disconnect`, but the activity's `lifecycleScope` is already
      cancelled by then: every queued coroutine is dropped, and the main-thread block
      that `disconnect` launches never runs. What is left is `closeSocket`; the status
      and `isConnecting` stay as they were. */
  function OnDestroy(s: Session, fails: CloseFailures): (r: Session)
    ensures r.tasks == []
    ensures r.socket.None? && r.stream.None?
    ensures r.isConnecting == s.isConnecting && r.status == s.status
    ensures s.stream.Some? ==> s.stream.value in r.link.streamCloses
    ensures s.socket.Some? ==> s.socket.value in r.link.socketCloses && s.socket.value !in r.link.connected
    ensures r.written == s.written && r.job == s.job && r.nextJob == s.nextJob
  {
    CloseSocket(s.(tasks := []), fails)
  }

  /** Destroying is disconnecting with nothing queued and without the main-thread
      block: the same sockets closed and fields cleared, the status and the flag
      untouched. */
  lemma DestroyIsDisconnectWithoutMainBlock(s: Session, fails: CloseFailures)
    ensures OnDestroy(s, fails) == Disconnect(s.(tasks := []), fails).(status := s.status, isConnecting := s.isConnecting)
  {
  }

  /** Closing twice is closing once, and whether a `close()` throws changes nothing:
      a failing stream close does not keep the socket open. */
  lemma CloseSocketIdempotent(s: Session, fails: CloseFailures, other: CloseFailures)
    ensures CloseSocket(CloseSocket(s, fails), other) == CloseSocket(s, fails)
    ensures CloseSocket(s, fails) == CloseSocket(s, other)
  {
  }

  /** Every event keeps the session valid. */
  lemma ConnectKeepsValid(s: Session, permission: bool, adapter: Adapter, device: RemoteDevice)
    requires Valid(s)
    ensures Valid(ConnectToTargetPC(s, permission, adapter, device))
  {
    if !s.isConnecting && !IsConnected(s.link, s.socket) && permission && adapter.Enabled? && device.Found? && !device.nameRefused {
      Launch(s.tasks, s.job, s.nextJob, DeviceName(device));
    }
  }

  lemma SendDataKeepsValid(s: Session, message: string)
    requires Valid(s)
    ensures Valid(SendData(s, message))
  {
    ConnectCountAppend(s.tasks, [Send(message)]);
    var w: seq<Task<string>> := [Send(message)];
    assert w[1..] == [];
  }

  lemma CloseKeepsValid(s: Session, fails: CloseFailures)
    requires Valid(s)
    ensures Valid(CloseSocket(s, fails))
  {
  }

  lemma RunConnectKeepsValid(s: Session, k: nat, outcome: ConnectOutcome, hello: string, fails: CloseFailures)
    requires Valid(s) && k < |s.tasks| && s.tasks[k].Connect?
    ensures Valid(RunConnect(s, k, outcome, hello, fails))
  {
    RunLast(s.tasks, k, hello, s.job);
  }

  lemma RunSendKeepsValid(s: Session, k: nat, writeFails: bool, fails: CloseFailures)
    requires Valid(s) && k < |s.tasks| && s.tasks[k].Send?
    ensures Valid(RunSend(s, k, writeFails, fails))
  {
    ConnectCountRemoveAt(s.tasks, k);
    OwnedAfter(s.tasks, s.job, k, "");
  }

  lemma DisconnectKeepsValid(s: Session, fails: CloseFailures)
    requires Valid(s)
    ensures Valid(Disconnect(s, fails))
  {
    CancelClears(s.tasks, s.job, s.job);
  }

  /** In a valid session `isConnecting` holds exactly while an attempt is queued. */
  lemma ConnectingIffQueued(s: Session)
    requires Valid(s)
    ensures s.isConnecting <==> exists i :: 0 <= i < |s.tasks| && s.tasks[i].Connect?
  {
    if !s.isConnecting {
      NoConnect(s.tasks);
    } else if forall i :: 0 <= i < |s.tasks| ==> !s.tasks[i].Connect? {
      NoConnectCount(s.tasks);
    }
  }

  /** Disconnecting twice is disconnecting once. */
  lemma DisconnectIdempotent(s: Session, fails: CloseFailures, other: CloseFailures)
    ensures Disconnect(Disconnect(s, fails), other) == Disconnect(s, fails)
  {
    var d := Disconnect(s, fails);
    CancelJobIdle(d.tasks, d.job);
  }

  /** Socket `id` was created but is neither held nor closed, socket or stream. */
  predicate Abandoned(s: Session, id: SocketId) {
    id < s.link.next && s.socket != Some(id) && s.stream != Some(id)
    && id !in s.link.socketCloses && id !in s.link.streamCloses
  }

  /** A socket whose `connect()` throws is dropped unclosed: the attempt's socket was
      only ever held in a local variable, and `closeSocket` closes the fields. */
  lemma ConnectFailureLeaks(s: Session, k: nat, e: ConnectError, hello: string, fails: CloseFailures)
    requires Valid(s) && k < |s.tasks| && s.tasks[k].Connect?
    ensures Abandoned(RunConnect(s, k, ConnectFailed(e), hello, fails), s.link.next)
  {
  }

  /** No event closes an abandoned socket, so it stays open for good. */
  lemma AbandonedStaysOpen(s: Session, id: SocketId, permission: bool, adapter: Adapter, device: RemoteDevice,
                           message: string, fails: CloseFailures)
    requires Abandoned(s, id)
    ensures Abandoned(ConnectToTargetPC(s, permission, adapter, device), id)
    ensures Abandoned(SendData(s, message), id)
    ensures Abandoned(Disconnect(s, fails), id)
  {
  }

  lemma AbandonedStaysOpenRun(s: Session, id: SocketId, k: nat, outcome: ConnectOutcome, hello: string,
                              writeFails: bool, fails: CloseFailures)
    requires Abandoned(s, id) && k < |s.tasks|
    ensures s.tasks[k].Connect? ==> Abandoned(RunConnect(s, k, outcome, hello, fails), id)
    ensures s.tasks[k].Send? ==> Abandoned(RunSend(s, k, writeFails, fails), id)
  {
  }

  /** A device whose name may not be read never gets an attempt: whatever the session,
      the request changes nothing, so no attempt ever carries the address as its name
      through the refused-name fallback. */
  lemma RefusedNameStartsNothing(s: Session, permission: bool, name: Option<string>)
    ensures ConnectToTargetPC(s, permission, Enabled, Found(name, true)).tasks == s.tasks
    ensures !s.isConnecting ==> !ConnectToTargetPC(s, permission, Enabled, Found(name, true)).isConnecting
  {
  }

  /** From the initial state: a connection request with everything in place, then the
      attempt succeeding, leaves a connected session with its greeting queued. */
  lemma ConnectScenario(name: string, hello: string, fails: CloseFailures)
    ensures var s1 := ConnectToTargetPC(Initial, true, Enabled, Found(Some(name), false));
      s1.isConnecting && s1.status == CONNECTING + name && |s1.tasks| == 1
      && var s2 := RunConnect(s1, 0, Connected, hello, fails);
      !s2.isConnecting && s2.socket == Some(0) && s2.stream == Some(0)
      && s2.status == CONNECTED + ": " + name && s2.tasks == [Send(hello)]
  {
    var s1 := ConnectToTargetPC(Initial, true, Enabled, Found(Some(name), false));
    assert s1.tasks == [Connect(0, name)];
  }
}
