/** The Bluetooth session of the watch activity that looks for a device by name, first
    among the paired devices and then by discovery: the find-and-connect guard, the
    discovery receiver, the connection coroutine, sending, disconnecting and closing
    the socket. Permission, adapter, discovery, socket and write outcomes are inputs;
    each coroutine launch is a queued task that runs later. */
module ScanSession {
  import opened Wrappers
  import opened BtLink

  const TARGET_DEVICE_NAME := "MyBluetoothDeviceName"

  /** The status texts. */
  const WAITING := "대기 중"
  const NO_PERMISSION := "권한 없음"
  const ENABLE_NEEDED := "블루투스 활성화 필요"
  const SEARCHING := "기기 찾는 중..."
  const PAIRED_FOUND := "페어링된 기기 찾음, 연결 시도..."
  const DISCOVERY_STARTING := "주변 기기 검색 시작..."
  const SCAN_NO_PERMISSION := "권한 부족 (스캔/위치)"
  const RECEIVER_ERROR := "수신기 등록 오류"
  const SCANNING := "주변 기기 검색 중..."
  const START_FAILED := "검색 시작 실패"
  const FOUND := "기기 찾음, 연결 시도 중..."
  const NOT_FOUND := "검색 완료 (기기 못 찾음)"
  const CONNECT_NO_PERMISSION := "권한 없음 (연결)"
  const CONNECTING := "연결 시도 중..."
  const CONNECTED := "연결 성공"
  const FAILED := "연결 실패: "
  const SEND_FAILED := "전송 실패"
  const DISCONNECTED := "연결 끊김"
  const HELLO := "Hello from Wear OS!"

  /** A remote device as the platform reports it; either part may be null. */
  datatype Device = Device(name: Option<string>, address: Option<string>)

  /** The activity's fields (the stream field names the socket whose stream it is),
      whether the discovery receiver is registered, the platform's sockets, the queued
      coroutines, and the messages written so far. */
  datatype Session = Session(
    socket: Option<SocketId>,
    stream: Option<SocketId>,
    job: Option<JobId>,
    nextJob: JobId,
    foundDevice: Option<Device>,
    isConnecting: bool,
    isScanning: bool,
    status: string,
    receiverRegistered: bool,
    link: Link,
    tasks: seq<Task<Device>>,
    written: seq<string>)

  const Initial: Session := Session(None, None, None, 0, None, false, false, WAITING, false, NoSockets, [], [])

  /** Stream and socket are held together, every socket held or known was created, a
      connection attempt is queued, for the current job, exactly while `isConnecting` is
      set, and the receiver is registered while scanning. */
  predicate Valid(s: Session) {
    LinkValid(s.link)
    && s.stream == s.socket
    && (s.socket.Some? ==> s.socket.value < s.link.next)
    && ConnectCount(s.tasks) == (if s.isConnecting then 1 else 0)
    && OwnedBy(s.tasks, s.job)
    && (s.isScanning ==> s.receiverRegistered)
  }

  lemma InitialValid()
    ensures Valid(Initial)
  {
  }

  /** Is this the device to connect to: name and address known, and the name equal to
      `TARGET_DEVICE_NAME` ignoring case. */
  predicate Matches(d: Device) {
    d.name.Some? && d.address.Some? && EqualsIgnoreCase(d.name.value, TARGET_DEVICE_NAME)
  }

  /** `findDeviceInPairedList`: the first paired device whose name equals the target
      ignoring case (its address is not looked at). None for the list stands for a
      missing adapter or a refused read. */
  function FindPaired(bonded: Option<seq<Device>>, target: string): (r: Option<Device>)
    ensures bonded.None? ==> r.None?
    ensures r.Some? ==> r.value.name.Some? && EqualsIgnoreCase(r.value.name.value, target)
    decreases if bonded.Some? then |bonded.value| else 0
  {
    if bonded.None? || |bonded.value| == 0 then None
    else
      var d := bonded.value[0];
      if d.name.Some? && EqualsIgnoreCase(d.name.value, target) then Some(d)
      else FindPaired(Some(bonded.value[1..]), target)
  }

  /** Whether a device's name equals the target ignoring case. */
  predicate NamedLike(d: Device, target: string) {
    d.name.Some? && EqualsIgnoreCase(d.name.value, target)
  }

  /** The search finds the first device so named, and nothing when none is. */
  lemma {:induction false} FindPairedFirst(ds: seq<Device>, target: string)
    ensures FindPaired(Some(ds), target).None? <==> forall i :: 0 <= i < |ds| ==> !NamedLike(ds[i], target)
    ensures FindPaired(Some(ds), target).Some? ==>
      exists i :: 0 <= i < |ds| && ds[i] == FindPaired(Some(ds), target).value
        && forall j :: 0 <= j < i ==> !NamedLike(ds[j], target)
    decreases |ds|
  {
    if |ds| > 0 {
      FindPairedFirst(ds[1..], target);
      if !NamedLike(ds[0], target) {
        var r := FindPaired(Some(ds), target);
        assert r == FindPaired(Some(ds[1..]), target);
        if r.Some? {
          var i :| 0 <= i < |ds[1..]| && ds[1..][i] == r.value
            && forall j :: 0 <= j < i ==> !NamedLike(ds[1..][j], target);
          assert ds[i + 1] == r.value;
          assert forall j :: 0 <= j < i + 1 ==> !NamedLike(ds[j], target) by {
            forall j | 0 <= j < i + 1 ensures !NamedLike(ds[j], target) {
              if j > 0 { assert ds[j] == ds[1..][j - 1]; }
            }
          }
        } else {
          assert forall i :: 0 <= i < |ds| ==> !NamedLike(ds[i], target) by {
            forall i | 0 <= i < |ds| ensures !NamedLike(ds[i], target) {
              if i > 0 { assert ds[i] == ds[1..][i - 1]; }
            }
          }
        }
      }
    }
  }

  /** `unregisterDiscoveryReceiver`; unregistering a receiver that is not registered
      throws, and that is caught. */
  function Unregister(s: Session): (r: Session)
    ensures !r.receiverRegistered
  {
    s.(receiverRegistered := false)
  }

  /** `cancelBluetoothDiscovery`: while the adapter is discovering and permission is
      missing it returns at once; otherwise it cancels, clears `isScanning` and
      unregisters the receiver. */
  function CancelDiscovery(s: Session, permission: bool, discovering: bool): (r: Session)
    ensures discovering && !permission ==> r == s
    ensures !discovering || permission ==> r == s.(isScanning := false, receiverRegistered := false)
  {
    if discovering && !permission then s
    else Unregister(s.(isScanning := false))
  }

  /** `startBluetoothDiscovery`: needs permission, does nothing while the adapter is
      already discovering, registers the receiver, and then either scans or reports the
      failure and unregisters. */
  function StartDiscovery(s: Session, permission: bool, discovering: bool, registers: bool, starts: bool): (r: Session)
    ensures r.isScanning <==>
      (s.isScanning && (!permission || discovering || !registers)) || (permission && !discovering && registers && starts)
    ensures (s.isScanning ==> s.receiverRegistered) ==> (r.isScanning ==> r.receiverRegistered)
    ensures !permission ==> r == s.(status := SCAN_NO_PERMISSION)
    ensures permission && discovering ==> r == s
    ensures permission && !discovering && !registers ==> r == s.(status := RECEIVER_ERROR)
    ensures permission && !discovering && registers && starts ==> r.receiverRegistered && r.status == SCANNING
    ensures permission && !discovering && registers && !starts ==>
      r == s.(status := START_FAILED, isScanning := false, receiverRegistered := false)
    ensures r == s.(isScanning := r.isScanning, receiverRegistered := r.receiverRegistered, status := r.status)
  {
    if !permission then s.(status := SCAN_NO_PERMISSION)
    else if discovering then s
    else if !registers then s.(status := RECEIVER_ERROR)
    else
      var s1 := s.(receiverRegistered := true);
      if starts then s1.(isScanning := true, status := SCANNING)
      else Unregister(s1.(status := START_FAILED, isScanning := false))
  }

  /** `initiateConnectionWithDevice`: without permission it only reports; while an
      attempt is running it does nothing; otherwise it marks the session connecting,
      cancels the previous job and launches a new one. */
  function Initiate(s: Session, permission: bool, d: Device): (r: Session)
    ensures !permission ==> r == s.(status := CONNECT_NO_PERMISSION)
    ensures permission && s.isConnecting ==> r == s
    ensures permission && !s.isConnecting ==>
      r.isConnecting && r.status == CONNECTING
      && r.job == Some(s.nextJob) && r.nextJob == s.nextJob + 1
      && |r.tasks| > 0 && r.tasks[|r.tasks| - 1] == Connect(s.nextJob, d)
      && (forall t :: t in r.tasks[..|r.tasks| - 1] ==> t in s.tasks && !(t.Connect? && s.job == Some(t.job)))
      && (forall t :: t in s.tasks && !(t.Connect? && s.job == Some(t.job)) ==> t in r.tasks)
    ensures r == s.(isConnecting := r.isConnecting, status := r.status, job := r.job, nextJob := r.nextJob, tasks := r.tasks)
  {
    if !permission then s.(status := CONNECT_NO_PERMISSION)
    else if s.isConnecting then s
    else
      var cancelled := CancelJob(s.tasks, s.job);
      assert (cancelled + [Connect(s.nextJob, d)])[..|cancelled|] == cancelled;
      s.(status := CONNECTING, isConnecting := true,
         job := Some(s.nextJob), nextJob := s.nextJob + 1,
         tasks := cancelled + [Connect(s.nextJob, d)])
  }

  /** `closeSocket`: closes the stream and then the socket inside ONE `try`, so an
      exception from the stream's close skips the socket's; both fields end null. */
  function CloseSocket(s: Session, fails: CloseFailures): (r: Session)
    ensures r.socket.None? && r.stream.None?
    ensures s.stream.Some? ==> s.stream.value in r.link.streamCloses
    ensures s.socket.Some? && !(s.stream.Some? && fails.stream) ==>
      s.socket.value in r.link.socketCloses && s.socket.value !in r.link.connected
    ensures s.socket.Some? && s.stream.Some? && fails.stream ==>
      r.link.socketCloses == s.link.socketCloses && r.link.connected == s.link.connected
    ensures r == s.(socket := None, stream := None, link := r.link)
  {
    var l1 := if s.stream.Some? then CloseStreamOf(s.link, s.stream.value) else s.link;
    var l2 := if s.socket.Some? && !(s.stream.Some? && fails.stream) then CloseSocketOf(l1, s.socket.value) else l1;
    s.(socket := None, stream := None, link := l2)
  }

  /** `disconnect`: cancels discovery, cancels the job, closes socket and stream, and
      resets the device, the flags and the status. */
  function Disconnect(s: Session, permission: bool, discovering: bool, fails: CloseFailures): (r: Session)
    ensures r.socket.None? && r.stream.None? && r.foundDevice.None?
    ensures !r.isConnecting && !r.isScanning && r.status == DISCONNECTED
    ensures forall t :: t in r.tasks ==> !(t.Connect? && s.job == Some(t.job))
    ensures forall t :: t in s.tasks && !(t.Connect? && s.job == Some(t.job)) ==> t in r.tasks
    ensures !discovering || permission ==> !r.receiverRegistered
    ensures r.written == s.written && r.job == s.job && r.nextJob == s.nextJob
  {
    var s1 := CancelDiscovery(s, permission, discovering);
    var s2 := CloseSocket(s1.(tasks := CancelJob(s1.tasks, s1.job)), fails);
    s2.(foundDevice := None, isConnecting := false, isScanning := false, status := DISCONNECTED)
  }

  /** `findAndConnectDevice`: after the permission and adapter checks, nothing happens
      while connecting or scanning; otherwise it disconnects, forgets the found device
      and launches the search of the paired devices. */
  function FindAndConnect(s: Session, permission: bool, enabled: bool, discovering: bool, fails: CloseFailures): (r: Session)
    ensures !permission ==> r == s.(status := NO_PERMISSION)
    ensures permission && !enabled ==> r == s.(status := ENABLE_NEEDED)
    ensures permission && enabled && (s.isConnecting || s.isScanning) ==> r == s
    ensures permission && enabled && !s.isConnecting && !s.isScanning ==>
      var d := Disconnect(s, permission, discovering, fails);
      r == d.(status := SEARCHING, tasks := d.tasks + [Lookup])
  {
    if !permission then s.(status := NO_PERMISSION)
    else if !enabled then s.(status := ENABLE_NEEDED)
    else if s.isConnecting || s.isScanning then s
    else
      var d := Disconnect(s, permission, discovering, fails);
      d.(foundDevice := None, status := SEARCHING, tasks := d.tasks + [Lookup])
  }

  /** The queued search `k` runs: a paired device of the target name is connected to at
      once; otherwise discovery starts. */
  function RunLookup(s: Session, k: nat, permission: bool, bonded: Option<seq<Device>>,
                     discovering: bool, registers: bool, starts: bool): (r: Session)
    requires k < |s.tasks| && s.tasks[k].Lookup?
    ensures var paired := if permission then FindPaired(bonded, TARGET_DEVICE_NAME) else None;
      paired.Some? ==>
        r.foundDevice == paired && r.isConnecting
        && (s.isConnecting ==> r.status == PAIRED_FOUND && r.tasks == RemoveAt(s.tasks, k))
        && (!s.isConnecting ==> r.status == CONNECTING && |r.tasks| > 0 && r.tasks[|r.tasks| - 1] == Connect(s.nextJob, paired.value))
        && r.isScanning == s.isScanning && r.receiverRegistered == s.receiverRegistered
    ensures var paired := if permission then FindPaired(bonded, TARGET_DEVICE_NAME) else None;
      paired.None? ==>
        r.foundDevice == s.foundDevice && r.isConnecting == s.isConnecting && r.tasks == RemoveAt(s.tasks, k)
        && (r.isScanning <==> (s.isScanning && (!permission || discovering || !registers))
                              || (permission && !discovering && registers && starts))
        && (!permission ==> r.status == SCAN_NO_PERMISSION)
        && (permission && discovering ==>
              r.status == DISCOVERY_STARTING && r.receiverRegistered == s.receiverRegistered)
        && (permission && !discovering && !registers ==>
              r.status == RECEIVER_ERROR && r.receiverRegistered == s.receiverRegistered)
        && (permission && !discovering && registers ==>
              r.status == (if starts then SCANNING else START_FAILED) && r.receiverRegistered == starts)
    ensures var paired := if permission then FindPaired(bonded, TARGET_DEVICE_NAME) else None;
      paired.None? ==>
        r == StartDiscovery(s.(tasks := RemoveAt(s.tasks, k), status := DISCOVERY_STARTING),
                            permission, discovering, registers, starts)
  {
    var s1 := s.(tasks := RemoveAt(s.tasks, k));
    var paired := if permission then FindPaired(bonded, TARGET_DEVICE_NAME) else None;
    if paired.Some? then Initiate(s1.(status := PAIRED_FOUND, foundDevice := paired), permission, paired.value)
    else StartDiscovery(s1.(status := DISCOVERY_STARTING), permission, discovering, registers, starts)
  }

  /** `ACTION_FOUND`: a matching device stops the scan and starts a connection to it;
      any other device changes nothing. */
  function OnDeviceFound(s: Session, d: Device, permission: bool, discovering: bool): (r: Session)
    ensures !Matches(d) ==> r == s
    ensures Matches(d) ==> r.foundDevice == Some(d) && !r.isScanning
    ensures Matches(d) && permission && !s.isConnecting ==>
      r.isConnecting && |r.tasks| > 0 && r.tasks[|r.tasks| - 1] == Connect(s.nextJob, d)
  {
    if Matches(d) then
      var s1 := s.(foundDevice := Some(d), status := FOUND, isScanning := false);
      Initiate(CancelDiscovery(s1, permission, discovering), permission, d)
    else s
  }

  /** `ACTION_DISCOVERY_FINISHED`: only a scan still in progress is ended, reported as
      "not found", and the receiver unregistered. */
  function OnDiscoveryFinished(s: Session): (r: Session)
    ensures !s.isScanning ==> r == s
    ensures s.isScanning ==> !r.isScanning && !r.receiverRegistered && r.status == NOT_FOUND
    ensures r == s.(isScanning := r.isScanning, receiverRegistered := r.receiverRegistered, status := r.status)
  {
    if s.isScanning then Unregister(s.(status := NOT_FOUND, isScanning := false)) else s
  }

  /** `sendData`: without a stream or a connected socket nothing at all happens;
      otherwise a write is queued. */
  function SendData(s: Session, message: string): (r: Session)
    ensures s.stream.None? || !IsConnected(s.link, s.socket) ==> r == s
    ensures s.stream.Some? && IsConnected(s.link, s.socket) ==> r == s.(tasks := s.tasks + [Send(message)])
  {
    if s.stream.None? || !IsConnected(s.link, s.socket) then s
    else s.(tasks := s.tasks + [Send(message)])
  }

  /** The text after "연결 실패: ", by exception type. */
  function ErrorMessage(e: ConnectError): string {
    match e
    case IoError(_) => "IO 오류"
    case SecurityError => "권한 오류"
    case OtherError(_) => "알 수 없는 오류"
  }

  /** The queued connection attempt `k` runs. The new socket is stored in its field
      before `connect()`. On success the stream follows, the status reports it and a
      greeting is sent; on failure the status names the error and `closeSocket` runs on
      the fields, the new socket included. `isConnecting` is cleared either way. */
  function RunConnect(s: Session, k: nat, outcome: ConnectOutcome, fails: CloseFailures): (r: Session)
    requires k < |s.tasks| && s.tasks[k].Connect?
    ensures !r.isConnecting
    ensures outcome.Connected? ==>
      r.socket == Some(s.link.next) && r.stream == Some(s.link.next) && IsConnected(r.link, r.socket)
      && r.status == CONNECTED && r.tasks == RemoveAt(s.tasks, k) + [Send(HELLO)]
    ensures !outcome.Connected? ==>
      r.socket.None? && r.stream.None? && r.status == FAILED + ErrorMessage(outcome.err)
      && r.tasks == RemoveAt(s.tasks, k)
    ensures r.written == s.written && r.job == s.job && r.nextJob == s.nextJob
    ensures r.isScanning == s.isScanning && r.receiverRegistered == s.receiverRegistered
  {
    var s1 := s.(tasks := RemoveAt(s.tasks, k));
    match outcome
    case Connected =>
      var (id, l) := Create(s1.link);
      var s2 := s1.(link := l, socket := Some(id));
      var s3 := s2.(link := ConnectOf(s2.link, id), stream := Some(id));
      SendData(s3.(status := CONNECTED, isConnecting := false), HELLO)
    case CreateFailed(e) =>
      CloseSocket(s1.(status := FAILED + ErrorMessage(e)), fails).(isConnecting := false)
    case ConnectFailed(e) =>
      var (id, l) := Create(s1.link);
      CloseSocket(s1.(link := l, socket := Some(id), status := FAILED + ErrorMessage(e)), fails).(isConnecting := false)
  }

  /** The queued write `k` runs: with no stream it does nothing; a write that succeeds
      records the message; a failing write reports it and closes the socket. */
  function RunSend(s: Session, k: nat, writeFails: bool, fails: CloseFailures): (r: Session)
    requires k < |s.tasks| && s.tasks[k].Send?
    ensures r.tasks == RemoveAt(s.tasks, k) && r.isConnecting == s.isConnecting && r.job == s.job
    ensures r.isScanning == s.isScanning && r.receiverRegistered == s.receiverRegistered
    ensures s.stream.Some? && !writeFails ==> r.written == s.written + [s.tasks[k].message]
    ensures s.stream.None? || writeFails ==> r.written == s.written
    ensures s.stream.Some? && writeFails ==> r.socket.None? && r.stream.None? && r.status == SEND_FAILED
  {
    var s1 := s.(tasks := RemoveAt(s.tasks, k));
    if s1.stream.None? then s1
    else if !writeFails then s1.(written := s1.written + [s.tasks[k].message])
    else CloseSocket(s1.(status := SEND_FAILED), fails)
  }

  /** `onDestroy` calls `disconnect`, but the activity's `lifecycleScope` is already
      cancelled by then: every queued coroutine (search, attempt, write) is dropped,
      and the main-thread block that would set "연결 끊김" never runs. The fields and
      flags `disconnect` resets directly are reset; the status stays as it was. */
  function OnDestroy(s: Session, permission: bool, discovering: bool, fails: CloseFailures): (r: Session)
    ensures r.tasks == []
    ensures r.socket.None? && r.stream.None? && r.foundDevice.None?
    ensures !r.isConnecting && !r.isScanning
    ensures r.status == s.status
    ensures !discovering || permission ==> !r.receiverRegistered
    ensures r.written == s.written && r.job == s.job && r.nextJob == s.nextJob
  {
    Disconnect(s.(tasks := []), permission, discovering, fails).(status := s.status)
  }

  /** Closing twice is closing once. */
  lemma CloseSocketIdempotent(s: Session, fails: CloseFailures, other: CloseFailures)
    ensures CloseSocket(CloseSocket(s, fails), other) == CloseSocket(s, fails)
  {
  }

  /** Unlike the closing with one `try` per close, here whether the stream's close
      throws decides whether a held, still open socket gets closed. */
  lemma StreamCloseFailureMatters(s: Session, socketFails: bool)
    requires s.socket.Some? && s.stream.Some? && s.socket.value !in s.link.socketCloses
    ensures CloseSocket(s, CloseFailures(true, socketFails)) != CloseSocket(s, CloseFailures(false, socketFails))
  {
    assert s.socket.value !in CloseSocket(s, CloseFailures(true, socketFails)).link.socketCloses;
  }

  /** The failing attempt's socket was stored in the field before `connect()`, so the
      failure path closes it, unless a stream is still held and its close throws. */
  lemma ConnectFailureCloses(s: Session, k: nat, e: ConnectError, fails: CloseFailures)
    requires Valid(s) && k < |s.tasks| && s.tasks[k].Connect?
    ensures var r := RunConnect(s, k, ConnectFailed(e), fails);
      s.stream.None? || !fails.stream ==> s.link.next in r.link.socketCloses
    ensures var r := RunConnect(s, k, ConnectFailed(e), fails);
      s.stream.Some? && fails.stream ==> s.link.next !in r.link.socketCloses
  {
  }

  /** Every event keeps the session valid. */
  lemma CloseKeepsValid(s: Session, fails: CloseFailures)
    requires Valid(s)
    ensures Valid(CloseSocket(s, fails))
  {
  }

  lemma DisconnectKeepsValid(s: Session, permission: bool, discovering: bool, fails: CloseFailures)
    requires Valid(s)
    ensures Valid(Disconnect(s, permission, discovering, fails))
  {
    CancelClears(s.tasks, s.job, s.job);
  }

  lemma FindAndConnectKeepsValid(s: Session, permission: bool, enabled: bool, discovering: bool, fails: CloseFailures)
    requires Valid(s)
    ensures Valid(FindAndConnect(s, permission, enabled, discovering, fails))
  {
    var d := Disconnect(s, permission, discovering, fails);
    DisconnectKeepsValid(s, permission, discovering, fails);
    ConnectCountAppend(d.tasks, [Lookup]);
    var w: seq<Task<Device>> := [Lookup];
    assert w[1..] == [];
  }

  lemma InitiateKeepsValid(s: Session, permission: bool, d: Device)
    requires Valid(s)
    ensures Valid(Initiate(s, permission, d))
  {
    if permission && !s.isConnecting {
      Launch(s.tasks, s.job, s.nextJob, d);
    }
  }

  lemma RunLookupKeepsValid(s: Session, k: nat, permission: bool, bonded: Option<seq<Device>>,
                            discovering: bool, registers: bool, starts: bool)
    requires Valid(s) && k < |s.tasks| && s.tasks[k].Lookup?
    ensures Valid(RunLookup(s, k, permission, bonded, discovering, registers, starts))
  {
    ConnectCountRemoveAt(s.tasks, k);
    OwnedAfter(s.tasks, s.job, k, "");
    var s1 := s.(tasks := RemoveAt(s.tasks, k));
    var paired := if permission then FindPaired(bonded, TARGET_DEVICE_NAME) else None;
    if paired.Some? {
      InitiateKeepsValid(s1.(status := PAIRED_FOUND, foundDevice := paired), permission, paired.value);
    }
  }

  lemma OnDeviceFoundKeepsValid(s: Session, d: Device, permission: bool, discovering: bool)
    requires Valid(s)
    ensures Valid(OnDeviceFound(s, d, permission, discovering))
  {
    if Matches(d) {
      var s1 := s.(foundDevice := Some(d), status := FOUND, isScanning := false);
      InitiateKeepsValid(CancelDiscovery(s1, permission, discovering), permission, d);
    }
  }

  lemma OnDiscoveryFinishedKeepsValid(s: Session)
    requires Valid(s)
    ensures Valid(OnDiscoveryFinished(s))
  {
  }

  lemma SendDataKeepsValid(s: Session, message: string)
    requires Valid(s)
    ensures Valid(SendData(s, message))
  {
    ConnectCountAppend(s.tasks, [Send(message)]);
    var w: seq<Task<Device>> := [Send(message)];
    assert w[1..] == [];
  }

  lemma RunConnectKeepsValid(s: Session, k: nat, outcome: ConnectOutcome, fails: CloseFailures)
    requires Valid(s) && k < |s.tasks| && s.tasks[k].Connect?
    ensures Valid(RunConnect(s, k, outcome, fails))
  {
    RunLast(s.tasks, k, HELLO, s.job);
  }

  lemma RunSendKeepsValid(s: Session, k: nat, writeFails: bool, fails: CloseFailures)
    requires Valid(s) && k < |s.tasks| && s.tasks[k].Send?
    ensures Valid(RunSend(s, k, writeFails, fails))
  {
    ConnectCountRemoveAt(s.tasks, k);
    OwnedAfter(s.tasks, s.job, k, "");
  }

  /** Disconnecting twice is disconnecting once. */
  lemma DisconnectIdempotent(s: Session, permission: bool, discovering: bool, fails: CloseFailures, other: CloseFailures)
    ensures var d := Disconnect(s, permission, discovering, fails);
      Disconnect(d, permission, discovering, other) == d
  {
    var d := Disconnect(s, permission, discovering, fails);
    CancelJobIdle(d.tasks, d.job);
  }

  /** The target name written in lower case still matches. */
  lemma LowerCaseTargetMatches()
    ensures Matches(Device(Some("mybluetoothdevicename"), Some("00:11:22:33:44:55")))
  {
    var a, b := "mybluetoothdevicename", TARGET_DEVICE_NAME;
    assert b == "MyBluetoothDeviceName";
    assert forall i :: 0 <= i < |a| ==> Lower(a[i]) == Lower(b[i]);
  }

  /** From the initial state: find, no paired device, discovery starts, and a device
      whose name differs from the target only in case is connected to. */
  lemma DiscoveryScenario(fails: CloseFailures)
    ensures var s1 := FindAndConnect(Initial, true, true, false, fails);
      s1.tasks == [Lookup] && s1.status == SEARCHING
      && var s2 := RunLookup(s1, 0, true, Some([]), false, true, true);
      s2.isScanning && s2.receiverRegistered && s2.tasks == []
      && var s3 := OnDeviceFound(s2, Device(Some("mybluetoothdevicename"), Some("00:11:22:33:44:55")), true, true);
      !s3.isScanning && s3.isConnecting && s3.tasks == [Connect(0, Device(Some("mybluetoothdevicename"), Some("00:11:22:33:44:55")))]
  {
    var s1 := FindAndConnect(Initial, true, true, false, fails);
    assert s1.tasks == [Lookup];
    var s2 := RunLookup(s1, 0, true, Some([]), false, true, true);
    assert s2.tasks == [];
    LowerCaseTargetMatches();
  }
}
