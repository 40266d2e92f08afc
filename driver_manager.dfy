/**
 * The user-mode engine's driver manager: the service's install/start/stop/uninstall
 * lifecycle, the device handle it keeps, and the IOCTL requests it sends to the driver.
 *
 * Every Windows call is replaced by its outcome, passed in as a parameter: the service
 * control manager's answers (`ScmReply`), whether `CreateFileW` opened the device
 * (`Option<Handle>`), and what `DeviceIoControl` reported (`IoReply`). The IOCTL methods
 * return the requests they issued, so what reaches the driver is part of their contracts.
 */
module DriverManager {
  import opened Base
  import DriverUtils
  import Utf8
  import IoctlCodes
  import opened DriverIpc

  /** `DriverState`. */
  datatype DriverState = Uninstalled | Installed | Started | Stopped

  /** An open handle to the driver's device. */
  datatype Handle = Handle(value: nat)

  /** The service name, also its display name. */
  const SVC_NAME: string := "Sanctum"
  /** The user-mode name of the driver's device, `\\.\Device\SanctumEDR`. */
  const DRIVER_UM_NAME: string := "\\\\.\\Device\\SanctumEDR"

  // Windows SDK values the manager passes or compares against.
  const SERVICE_ALL_ACCESS: uint32 := 0xF01FF
  const SERVICE_KERNEL_DRIVER: uint32 := 0x1
  const SERVICE_DEMAND_START: uint32 := 0x3
  const SERVICE_ERROR_NORMAL: uint32 := 0x1
  const ERROR_SERVICE_EXISTS: uint32 := 1073
  const ERROR_DUPLICATE_SERVICE_NAME: uint32 := 1078

  /** What the service control manager answers for one open-manager, open-service, act sequence. */
  datatype ScmReply = ScmReply(managerOpens: bool, serviceOpens: bool, operationSucceeds: bool)
  {
    /** All three calls succeed. */
    predicate Succeeds()
    {
      managerOpens && serviceOpens && operationSucceeds
    }
  }

  /** `CreateServiceW`'s answer: a handle (valid or not), or the error `GetLastError` reports. */
  datatype CreateServiceReply = Created(handleValid: bool) | CreateFailed(lastError: uint32)

  /** The arguments `install_driver` passes to `CreateServiceW`. */
  datatype ServiceConfig = ServiceConfig(
    serviceName: seq<uint16>,
    displayName: seq<uint16>,
    desiredAccess: uint32,
    serviceType: uint32,
    startType: uint32,
    errorControl: uint32,
    binaryPathName: seq<uint16>)

  /** `DeviceIoControl`'s outcome: an error, or success with `bytes_returned` and the output buffer. */
  datatype IoReply<T> = IoFailed | IoDone(bytesReturned: uint32, output: T)

  /**
   * The control codes the manager sends. The values of the two message codes are not among
   * the definitions modelled here, so the codes are named rather than numbered.
   */
  datatype IoctlCode = CheckCompatibility | Ping | PingWithStruct | GetMessageLen | GetMessages

  /** The numeric value of a code, where its definition is modelled. */
  function CodeValue(c: IoctlCode): (r: Option<bv32>)
    ensures c == Ping ==> r == Some(0x222000)
    ensures c == PingWithStruct ==> r == Some(0x222004)
    ensures c == CheckCompatibility ==> r == Some(0x222008)
    ensures r.None? <==> c == GetMessageLen || c == GetMessages
  {
    IoctlCodes.BufferedCodes();
    match c
    case CheckCompatibility => Some(IoctlCodes.SANC_IOCTL_CHECK_COMPATIBILITY)
    case Ping => Some(IoctlCodes.SANC_IOCTL_PING)
    case PingWithStruct => Some(IoctlCodes.SANC_IOCTL_PING_WITH_STRUCT)
    case _ => None
  }

  /** What an IOCTL request carries in: nothing, raw bytes, a ping struct, or `VERSION_CLIENT`. */
  datatype IoctlInput = NoInput | Text(bytes: seq<byte>) | PingStruct(ping: IoctlCodes.SancIoctlPing) | ClientVersion

  /** One `DeviceIoControl` request: the code, the input, and the declared output buffer size. */
  datatype IoctlRequest = IoctlRequest(code: IoctlCode, input: IoctlInput, outputLength: nat)

  /** The text the user-mode ping sends. */
  const PING_MESSAGE: string := "Hello world"
  /** The response buffer size of the user-mode ping. */
  const PING_RESPONSE_SIZE: nat := 256
  /** The text the user-mode struct ping sends. */
  const STRUCT_PING_MESSAGE: string := "Hello from usermode!"

  /** The compatibility answer: the driver's bool, and false on an error or when nothing came back. */
  predicate Compatible(reply: IoReply<bool>)
  {
    reply.IoDone? && reply.bytesReturned != 0 && reply.output
  }

  /**
   * The text `ioctl_ping_driver` returns for a reply of `n` bytes: those bytes as UTF-8, or ""
   * when they are not UTF-8. A non-empty result is exactly what the driver wrote.
   */
  function PingResponseText(n: nat, response: seq<byte>): (r: string)
    requires n <= |response|
    ensures Utf8.Decode(response[..n]).Some? ==> Utf8.Encode(r) == response[..n]
    ensures Utf8.Decode(response[..n]).None? ==> r == []
    ensures r != [] ==> Utf8.Decode(response[..n]) == Some(r)
  {
    match Utf8.Decode(response[..n])
    case Some(s) =>
      Utf8.EncodeDecode(response[..n]);
      s
    case None => []
  }

  /**
   * The driver's 13-byte "Msg received!" reply, whatever follows it in the 256-byte buffer,
   * reads back as that text.
   */
  lemma PingReplyReadsBack(response: seq<byte>, reply: string)
    requires |Utf8.Encode(reply)| <= |response|
    requires response[..|Utf8.Encode(reply)|] == Utf8.Encode(reply)
    ensures PingResponseText(|Utf8.Encode(reply)|, response) == reply
  {
    Utf8.DecodeEncode(reply);
  }

  /**
   * `w` is the NUL-terminated UTF-16 form of `s`, as `to_u16_vec` builds it: a final 0 after
   * units that decode to `s`.
   */
  predicate IsWideName(w: seq<uint16>, s: string)
  {
    |w| > 0 && w[|w| - 1] == 0 && DriverUtils.Decode(w[..|w| - 1]) == Some(s)
  }

  /** `to_u16_vec` as the manager uses it: the NUL-terminated UTF-16 form of `s`. */
  method WideName(s: string) returns (w: seq<uint16>)
    ensures IsWideName(w, s)
  {
    w := DriverUtils.ToU16Vec(s);
  }

  /** A NUL-terminated name is exactly the string's encoding followed by one 0 unit. */
  lemma WideNameIsEncoding(w: seq<uint16>, s: string)
    ensures IsWideName(w, s) <==> w == DriverUtils.Encode(s) + [0]
  {
    if IsWideName(w, s) {
      DriverUtils.EncodeDecode(w[..|w| - 1]);
      assert w == w[..|w| - 1] + [0];
    }
    if w == DriverUtils.Encode(s) + [0] {
      assert w[..|w| - 1] == DriverUtils.Encode(s);
      DriverUtils.DecodeEncode(s);
    }
  }

  /**
   * `SanctumDriverManager`: the UTF-16 names it passes to Windows, the device handle
   * (`handle_via_path`) and the recorded state.
   */
  class SanctumDriverManager {
    const deviceUmSymbolicLinkName: seq<uint16>
    const svcPath: seq<uint16>
    const svcName: seq<uint16>
    var handle: Option<Handle>
    var state: DriverState

    constructor (deviceUmSymbolicLinkName: seq<uint16>, svcPath: seq<uint16>, svcName: seq<uint16>)
      ensures this.deviceUmSymbolicLinkName == deviceUmSymbolicLinkName
      ensures this.svcPath == svcPath && this.svcName == svcName
      ensures handle.None? && state == Stopped
    {
      this.deviceUmSymbolicLinkName := deviceUmSymbolicLinkName;
      this.svcPath := svcPath;
      this.svcName := svcName;
      handle := None;
      state := Stopped;
    }

    /**
     * `SanctumDriverManager::new`: panic (here: null) when the `.sys` file is missing;
     * otherwise start `Stopped` with no handle, try to open the device once, and record
     * `Started` exactly when that succeeds. `sysFileLocation` is `SANC_SYS_FILE_LOCATION`.
     */
    static method New(sysFileLocation: string, sysFileExists: bool, createFile: Option<Handle>)
      returns (m: SanctumDriverManager?)
      ensures m == null <==> !sysFileExists
      ensures m != null ==>
        && fresh(m)
        && IsWideName(m.deviceUmSymbolicLinkName, DRIVER_UM_NAME)
        && IsWideName(m.svcPath, sysFileLocation)
        && IsWideName(m.svcName, SVC_NAME)
        && m.handle == createFile
        && (m.state == Started <==> createFile.Some?)
        && (m.state == Stopped <==> createFile.None?)
    {
      var deviceUmSymbolicLinkName := WideName(DRIVER_UM_NAME);
      var svcPath := WideName(sysFileLocation);
      var svcName := WideName(SVC_NAME);
      if !sysFileExists {
        return null;
      }
      var instance := new SanctumDriverManager(deviceUmSymbolicLinkName, svcPath, svcName);
      var handleOpened := instance.InitHandleViaRegistry(createFile);
      if handleOpened {
        instance.state := Started;
      }
      m := instance;
    }

    /**
     * `init_handle_via_registry`: open the device; on success keep the handle and answer true,
     * on failure answer false and keep whatever handle there was.
     */
    method InitHandleViaRegistry(createFile: Option<Handle>) returns (ok: bool)
      modifies this
      ensures ok <==> createFile.Some?
      ensures handle == if ok then createFile else old(handle)
      ensures state == old(state)
    {
      match createFile {
        case Some(h) =>
          handle := Some(h);
          ok := true;
        case None =>
          ok := false;
      }
    }

    /**
     * `install_driver`: open the manager (panic if it cannot), then register the driver as a
     * demand-start kernel service named and displayed as `svc_name` with image `svc_path`.
     * An invalid handle panics; so does any failure other than the service already existing
     * or its name being taken, which return quietly. The manager's own fields never change.
     */
    method InstallDriver(managerOpens: bool, reply: CreateServiceReply)
      returns (exit: Exit, request: Option<ServiceConfig>)
      ensures !managerOpens ==> exit == Panicked && request.None?
      ensures managerOpens ==> request == Some(ServiceConfig(
        svcName, svcName, SERVICE_ALL_ACCESS, SERVICE_KERNEL_DRIVER,
        SERVICE_DEMAND_START, SERVICE_ERROR_NORMAL, svcPath))
      ensures managerOpens ==>
        (exit == Returned <==>
          || reply == Created(true)
          || reply == CreateFailed(ERROR_DUPLICATE_SERVICE_NAME)
          || reply == CreateFailed(ERROR_SERVICE_EXISTS))
    {
      if !managerOpens {
        return Panicked, None;
      }
      request := Some(ServiceConfig(
        svcName, svcName, SERVICE_ALL_ACCESS, SERVICE_KERNEL_DRIVER,
        SERVICE_DEMAND_START, SERVICE_ERROR_NORMAL, svcPath));
      match reply {
        case Created(valid) =>
          exit := if valid then Returned else Panicked;
        case CreateFailed(lastError) =>
          if lastError == ERROR_DUPLICATE_SERVICE_NAME {
            exit := Returned;
          } else if lastError == ERROR_SERVICE_EXISTS {
            exit := Returned;
          } else {
            exit := Panicked;
          }
      }
    }

    /**
     * `stop_driver`: open the manager (panic if it cannot) and the service, and send
     * SERVICE_CONTROL_STOP; only when all of that succeeds is the device handle dropped.
     * The recorded state is never written, so a stopped driver may still read `Started`.
     */
    method StopDriver(scm: ScmReply) returns (exit: Exit)
      modifies this
      ensures exit == Panicked <==> !scm.managerOpens
      ensures state == old(state)
      ensures handle == if scm.Succeeds() then None else old(handle)
    {
      if !scm.managerOpens {
        return Panicked;
      }
      if !scm.serviceOpens {
        return Returned;
      }
      if !scm.operationSucceeds {
        return Returned;
      }
      handle := None;
      exit := Returned;
    }

    /**
     * `uninstall_driver`: open the manager (panic if it cannot) and the service, and delete it;
     * only when all of that succeeds is `Uninstalled` recorded. The handle is left alone.
     */
    method UninstallDriver(scm: ScmReply) returns (exit: Exit)
      modifies this
      ensures exit == Panicked <==> !scm.managerOpens
      ensures handle == old(handle)
      ensures state == if scm.Succeeds() then Uninstalled else old(state)
    {
      if !scm.managerOpens {
        return Panicked;
      }
      if !scm.serviceOpens {
        return Returned;
      }
      if !scm.operationSucceeds {
        return Returned;
      }
      state := Uninstalled;
      exit := Returned;
    }

    /**
     * The guard every IOCTL method starts with: with no handle, try to open the device exactly
     * once more. The answer is the handle the method then uses, if any.
     */
    method EnsureHandle(retryCreateFile: Option<Handle>) returns (h: Option<Handle>)
      modifies this
      ensures h == handle
      ensures h == if old(handle).Some? then old(handle) else retryCreateFile
      ensures state == old(state)
    {
      if handle.None? {
        var _ := InitHandleViaRegistry(retryCreateFile);
      }
      h := handle;
    }

    /**
     * `ioctl_check_driver_compatibility`: with no handle even after the retry, stop the
     * driver and panic; otherwise send `VERSION_CLIENT` and answer the driver's bool, or false
     * when the request fails or returns no bytes.
     */
    method IoctlCheckDriverCompatibility(retryCreateFile: Option<Handle>, reply: IoReply<bool>, stopScm: ScmReply)
      returns (exit: Exit, compatible: bool, issued: seq<IoctlRequest>)
      modifies this
      ensures state == old(state)
      ensures var h := if old(handle).Some? then old(handle) else retryCreateFile;
        if h.None? then
          exit == Panicked && issued == [] && !compatible && handle.None?
        else
          && exit == Returned
          && issued == [IoctlRequest(CheckCompatibility, ClientVersion, 1)]
          && (compatible <==> Compatible(reply))
          && handle == h
    {
      var h := EnsureHandle(retryCreateFile);
      if h.None? {
        var _ := StopDriver(stopScm);
        return Panicked, false, [];
      }
      issued := [IoctlRequest(CheckCompatibility, ClientVersion, 1)];
      exit := Returned;
      match reply {
        case IoFailed =>
          compatible := false;
        case IoDone(bytesReturned, response) =>
          if bytesReturned == 0 {
            compatible := false;
          } else {
            compatible := response;
          }
      }
    }

    /**
     * `start_driver`: open the manager (panic if it cannot) and the service and start it,
     * returning quietly with nothing changed if either fails; then open the device and check
     * compatibility, and when the driver is unreachable or incompatible stop it and panic.
     * The recorded state is never written.
     */
    method StartDriver(startScm: ScmReply, createFile: Option<Handle>, retryCreateFile: Option<Handle>,
                       compat: IoReply<bool>, stopScm: ScmReply)
      returns (exit: Exit)
      modifies this
      ensures state == old(state)
      ensures !startScm.managerOpens ==> exit == Panicked && unchanged(this)
      ensures startScm.managerOpens && !startScm.Succeeds() ==> exit == Returned && unchanged(this)
      ensures startScm.Succeeds() ==>
        var handleOpened := if createFile.Some? then createFile else old(handle);
        var h := if handleOpened.Some? then handleOpened else retryCreateFile;
        if h.Some? && Compatible(compat) then
          exit == Returned && handle == h
        else
          && exit == Panicked
          && handle == (if stopScm.Succeeds() then None else h)
    {
      if !startScm.managerOpens {
        return Panicked;
      }
      if !startScm.serviceOpens {
        return Returned;
      }
      if !startScm.operationSucceeds {
        return Returned;
      }
      var _ := InitHandleViaRegistry(createFile);
      var compatExit, compatible, _ := IoctlCheckDriverCompatibility(retryCreateFile, compat, stopScm);
      if compatExit == Panicked {
        return Panicked;
      }
      if !compatible {
        var _ := StopDriver(stopScm);
        return Panicked;
      }
      exit := Returned;
    }

    /**
     * `ioctl_ping_driver`: with no handle even after the retry, answer "" and send nothing;
     * otherwise send "Hello world" with a 256-byte response buffer and answer the first
     * `bytes_returned` bytes of the response as text, or "" on an error or bad UTF-8.
     */
    method IoctlPingDriver(retryCreateFile: Option<Handle>, reply: IoReply<seq<byte>>)
      returns (response: string, issued: seq<IoctlRequest>)
      requires reply.IoDone? ==> |reply.output| == PING_RESPONSE_SIZE && reply.bytesReturned <= PING_RESPONSE_SIZE
      modifies this
      ensures state == old(state)
      ensures var h := if old(handle).Some? then old(handle) else retryCreateFile;
        && handle == h
        && (h.None? ==> response == [] && issued == [])
        && (h.Some? ==> issued == [IoctlRequest(Ping, Text(Utf8.Encode(PING_MESSAGE)), PING_RESPONSE_SIZE)])
        && (h.Some? && reply.IoFailed? ==> response == [])
        && (h.Some? && reply.IoDone? ==> response == PingResponseText(reply.bytesReturned, reply.output))
    {
      var h := EnsureHandle(retryCreateFile);
      if h.None? {
        return [], [];
      }
      var message := Utf8.Encode(PING_MESSAGE);
      issued := [IoctlRequest(Ping, Text(message), PING_RESPONSE_SIZE)];
      match reply {
        case IoFailed =>
          response := [];
        case IoDone(bytesReturned, output) =>
          match Utf8.Decode(output[..bytesReturned]) {
            case Some(s) => response := s;
            case None => response := [];
          }
      }
    }

    /**
     * `ioctl_get_driver_messages`: with no handle even after the retry, `None`. Otherwise ask
     * for the size of the pending batch; on an error or a size of 0 answer `None` without a
     * second request. Otherwise ask for the batch with an output buffer of exactly that size
     * (declared to Windows as the size cast to `u32`), and answer `None` on an error, on zero
     * bytes returned or when the buffer does not deserialise; else the deserialised batch.
     */
    method IoctlGetDriverMessages(retryCreateFile: Option<Handle>, sizeReply: IoReply<seq<byte>>,
                                  dataReply: IoReply<seq<byte>>, deserialize: seq<byte> -> Option<DriverMessages>)
      returns (r: Option<DriverMessages>, issued: seq<IoctlRequest>)
      requires sizeReply.IoDone? ==> |sizeReply.output| == 8
      requires sizeReply.IoDone? && dataReply.IoDone? ==> |dataReply.output| == FromLe(sizeReply.output)
      modifies this
      ensures state == old(state)
      ensures var h := if old(handle).Some? then old(handle) else retryCreateFile;
        && handle == h
        && (h.None? ==> r.None? && issued == [])
        && (h.Some? ==>
              var first := IoctlRequest(GetMessageLen, NoInput, 8);
              if sizeReply.IoFailed? || FromLe(sizeReply.output) == 0 then
                r.None? && issued == [first]
              else
                var size := FromLe(sizeReply.output);
                && issued == [first, IoctlRequest(GetMessages, NoInput, AsU32(size))]
                && (dataReply.IoFailed? || dataReply.bytesReturned == 0 ==> r.None?)
                && (dataReply.IoDone? && dataReply.bytesReturned != 0 ==> r == deserialize(dataReply.output)))
    {
      var h := EnsureHandle(retryCreateFile);
      if h.None? {
        return None, [];
      }
      issued := [IoctlRequest(GetMessageLen, NoInput, 8)];
      if sizeReply.IoFailed? {
        return None, issued;
      }
      var sizeOfKernelMsg := FromLe(sizeReply.output);
      if sizeOfKernelMsg == 0 {
        return None, issued;
      }
      issued := issued + [IoctlRequest(GetMessages, NoInput, AsU32(sizeOfKernelMsg))];
      if dataReply.IoFailed? {
        return None, issued;
      }
      if dataReply.bytesReturned == 0 {
        return None, issued;
      }
      r := deserialize(dataReply.output);
    }

    /**
     * `ioctl_ping_driver_w_struct`: with no handle even after the retry, send nothing;
     * otherwise send a ping whose array starts with "Hello from usermode!" (20 bytes, within
     * the capacity), zero after it, with `str_len` 20 and `received` set. What the driver
     * answers is only printed.
     */
    method IoctlPingDriverWStruct(retryCreateFile: Option<Handle>)
      returns (issued: seq<IoctlRequest>)
      modifies this
      ensures state == old(state)
      ensures var h := if old(handle).Some? then old(handle) else retryCreateFile;
        && handle == h
        && (h.None? ==> issued == [])
        && (h.Some? ==>
              && |issued| == 1
              && issued[0].code == PingWithStruct
              && issued[0].outputLength == IoctlCodes.SANC_IOCTL_PING_SIZE
              && issued[0].input.PingStruct?
              && IoctlCodes.IsPingOf(issued[0].input.ping, STRUCT_PING_MESSAGE))
    {
      var h := EnsureHandle(retryCreateFile);
      if h.None? {
        return [];
      }
      // 20 ASCII bytes always fit the 256-byte array
      var message := IoctlCodes.AsciiPing(STRUCT_PING_MESSAGE);
      issued := [IoctlRequest(PingWithStruct, PingStruct(message), IoctlCodes.SANC_IOCTL_PING_SIZE)];
    }
  }
}
