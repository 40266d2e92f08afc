/**
 * The driver's side of the message channel to the user-mode engine: the locked event queue
 * `DriverMessagesWithMutex`, the `IoctlBuffer` helper over a METHOD_BUFFERED request, and the
 * IOCTL handlers built on them, among them the two-step fetch that first drains the live
 * queue into a cache and reports the cache's serialised size, then hands the cache over.
 *
 * The fast mutex is left out; the current IRQL is a parameter, read once before and once
 * after the lock would be taken. The two global queues are nullable references.
 */
module DeviceComms {
  import opened Base
  import opened Wdk
  import opened DriverIpc
  import Utf8
  import IoctlCodes

  /** `serde_json::to_vec` on a batch: the encoded bytes, or `None` when serialising fails. */
  type Serializer = DriverMessages -> Option<Bytes>

  /** The byte count `add_existing_queue` reports: the encoding's length, 0 on an error. */
  function SerializedLen(serialize: Serializer, d: DriverMessages): (n: uint64)
    ensures serialize(d).Some? ==> n == |serialize(d).value|
    ensures serialize(d).None? ==> n == 0
  {
    match serialize(d)
    case Some(bytes) => |bytes|
    case None => 0
  }

  /** Both IRQL checks pass: PASSIVE_LEVEL before the lock, at most APC_LEVEL under it. */
  predicate IrqlAllows(irql: nat, lockedIrql: nat)
  {
    irql == PASSIVE_LEVEL && lockedIrql <= APC_LEVEL
  }

  /** `DriverMessagesWithMutex`: the queued events and a flag that promises there are none. */
  class DriverMessageQueue {
    var isEmpty: bool
    var data: DriverMessages

    /** The flag never lies: when it says empty, all three vectors are empty. */
    predicate Valid()
      reads this
    {
      isEmpty ==> data.HasNone()
    }

    /** `DriverMessagesWithMutex::new()`: no events and the flag set. */
    constructor ()
      ensures Valid() && isEmpty && data == NoMessages()
    {
      isEmpty := true;
      data := NoMessages();
    }

    /** `add_message_to_queue`: at a permitted IRQL, append `msg` to the debug messages. */
    method AddMessageToQueue(irql: nat, lockedIrql: nat, msg: string)
      requires Valid()
      modifies this
      ensures Valid()
      ensures IrqlAllows(irql, lockedIrql) ==>
        !isEmpty && data == old(data).(messages := old(data.messages) + [msg])
      ensures !IrqlAllows(irql, lockedIrql) ==> unchanged(this)
    {
      if irql != PASSIVE_LEVEL {
        return;
      }
      if lockedIrql > APC_LEVEL {
        return;
      }
      isEmpty := false;
      data := data.(messages := data.messages + [msg]);
    }

    /** `add_process_creation_to_queue`: at a permitted IRQL, append `p` to the creations. */
    method AddProcessCreationToQueue(irql: nat, lockedIrql: nat, p: ProcessStarted)
      requires Valid()
      modifies this
      ensures Valid()
      ensures IrqlAllows(irql, lockedIrql) ==>
        !isEmpty && data == old(data).(processCreations := old(data.processCreations) + [p])
      ensures !IrqlAllows(irql, lockedIrql) ==> unchanged(this)
    {
      if irql != PASSIVE_LEVEL {
        return;
      }
      if lockedIrql > APC_LEVEL {
        return;
      }
      isEmpty := false;
      data := data.(processCreations := data.processCreations + [p]);
    }

    /** `add_process_termination_to_queue`: at a permitted IRQL, append `t` to the terminations. */
    method AddProcessTerminationToQueue(irql: nat, lockedIrql: nat, t: ProcessTerminated)
      requires Valid()
      modifies this
      ensures Valid()
      ensures IrqlAllows(irql, lockedIrql) ==>
        !isEmpty && data == old(data).(processTerminations := old(data.processTerminations) + [t])
      ensures !IrqlAllows(irql, lockedIrql) ==> unchanged(this)
    {
      if irql != PASSIVE_LEVEL {
        return;
      }
      if lockedIrql > APC_LEVEL {
        return;
      }
      isEmpty := false;
      data := data.(processTerminations := data.processTerminations + [t]);
    }

    /**
     * `extract_all`: at a permitted IRQL and with the flag clear, hand over every queued event
     * and leave three empty vectors with the flag set, so a second call at once gets `None`.
     * Otherwise `None`, and nothing changes.
     */
    method ExtractAll(irql: nat, lockedIrql: nat) returns (r: Option<DriverMessages>)
      requires Valid()
      modifies this
      ensures Valid()
      ensures r.Some? <==> IrqlAllows(irql, lockedIrql) && !old(isEmpty)
      ensures r.Some? ==> r.value == old(data) && isEmpty && data == NoMessages()
      ensures r.None? ==> unchanged(this)
    {
      if irql != PASSIVE_LEVEL {
        return None;
      }
      if lockedIrql > APC_LEVEL {
        return None;
      }
      if isEmpty {
        return None;
      }
      r := Some(data);
      data := NoMessages();
      isEmpty := true;
    }

    /**
     * `add_existing_queue`: append each of `q`'s vectors to the matching one here, clear the
     * flag (even when `q` held nothing) and report the serialised size of everything now
     * queued, 0 if serialising fails. `drained` is what `q` is left holding: nothing.
     */
    method AddExistingQueue(q: DriverMessages, serialize: Serializer) returns (drained: DriverMessages, len: uint64)
      requires Valid()
      modifies this
      ensures Valid()
      ensures !isEmpty && data == old(data).Then(q)
      ensures drained == NoMessages()
      ensures len == SerializedLen(serialize, data)
    {
      isEmpty := false;
      data := data.Then(q);
      drained := NoMessages();
      len := SerializedLen(serialize, data);
    }
  }

  /** The errors of the message-channel handlers (`DriverError`). */
  datatype DriverError = NullPtr | NoDataToSend | DriverMessagePtrNull | CouldNotSerialize

  /** `IoctlBuffer`: the request's stack location and IRP, and the input once received. */
  class IoctlBuffer {
    var len: uint32
    var buf: array?<byte>
    const stack: IoStackLocation
    const irp: Irp

    /** `IoctlBuffer::new`: nothing received yet. */
    constructor (stack: IoStackLocation, irp: Irp)
      ensures this.stack == stack && this.irp == irp && len == 0 && buf == null
    {
      this.stack := stack;
      this.irp := irp;
      len := 0;
      buf := null;
    }

    /**
     * `receive`: a null system buffer fails with STATUS_BUFFER_ALL_ZEROS and changes nothing;
     * otherwise record the buffer and `InputBufferLength`. The input length is not checked.
     */
    method Receive() returns (r: Result<(), NtStatus>)
      modifies this
      ensures irp.systemBuffer == null ==> r == Err(StatusBufferAllZeros) && len == old(len) && buf == old(buf)
      ensures irp.systemBuffer != null ==> r == Ok(()) && len == stack.inputBufferLength && buf == irp.systemBuffer
    {
      var inputLen := stack.inputBufferLength;
      var inputBuffer := irp.systemBuffer;
      if inputBuffer == null {
        return Err(StatusBufferAllZeros);
      }
      if inputBuffer == null {
        // the source checks the buffer address a second time; the check can never fire
        assert false;
      }
      len := inputLen;
      buf := inputBuffer;
      r := Ok(());
    }

    /**
     * `get_buf_to_str`: receive, fail with STATUS_UNSUCCESSFUL on zero input bytes, and
     * otherwise decode the input as UTF-8; bytes that are not UTF-8 make `unwrap` panic.
     */
    method GetBufToStr() returns (r: Outcome<string, NtStatus>)
      requires irp.HoldsInput(stack)
      modifies this
      ensures irp.systemBuffer == null ==> r == Failed(StatusBufferAllZeros)
      ensures irp.systemBuffer != null && stack.inputBufferLength == 0 ==> r == Failed(StatusUnsuccessful)
      ensures irp.systemBuffer != null && stack.inputBufferLength > 0 ==>
        var input := irp.systemBuffer[..stack.inputBufferLength];
        match Utf8.Decode(input)
        case Some(s) => r == Done(s)
        case None => r == Panic
    {
      var received := Receive();
      if received.Err? {
        return Failed(received.error);
      }
      var inputBuffer := buf[..len];
      if |inputBuffer| == 0 {
        return Failed(StatusUnsuccessful);
      }
      match Utf8.Decode(inputBuffer) {
        case None => r := Panic;
        case Some(s) => r := Done(s);
      }
    }

    /**
     * `send_str`: report success and the reply's byte length in `IoStatus`, then copy the
     * reply's UTF-8 bytes to the front of the system buffer; a null buffer fails with
     * STATUS_UNSUCCESSFUL after `IoStatus` was already written.
     */
    method SendStr(s: string) returns (r: Result<(), NtStatus>)
      requires irp.systemBuffer != null ==> |Utf8.Encode(s)| <= irp.systemBuffer.Length
      requires |Utf8.Encode(s)| < 0x1_0000_0000_0000_0000
      modifies irp, irp.systemBuffer
      ensures irp.status == StatusSuccess && irp.information == |Utf8.Encode(s)|
      ensures irp.systemBuffer == null ==> r == Err(StatusUnsuccessful)
      ensures irp.systemBuffer != null ==>
        && r == Ok(())
        && irp.systemBuffer[..|Utf8.Encode(s)|] == Utf8.Encode(s)
        && irp.systemBuffer[|Utf8.Encode(s)|..] == old(irp.systemBuffer[|Utf8.Encode(s)|..])
    {
      irp.status := StatusSuccess;
      var response := Utf8.Encode(s);
      irp.information := |response|;
      if irp.systemBuffer != null {
        CopyMemory(irp.systemBuffer, response);
      } else {
        return Err(StatusUnsuccessful);
      }
      r := Ok(());
    }
  }

  /** The reply both ping handlers send back. */
  const PING_REPLY: string := "Msg received!"

  /** "Msg received!" is ASCII: its UTF-8 form is its 13 characters, one byte each. */
  lemma PingReplyBytes()
    ensures |Utf8.Encode(PING_REPLY)| == 13
  {
    Utf8.EncodeAscii(PING_REPLY);
  }

  /**
   * `ioctl_handler_ping` (the `IoctlBuffer` version): read the input as a string, then send
   * "Msg received!" back. The handler trusts the system buffer to hold the 13-byte reply.
   */
  method IoctlHandlerPing(stack: IoStackLocation, irp: Irp) returns (r: Outcome<(), NtStatus>)
    requires irp.HoldsInput(stack)
    requires irp.systemBuffer != null ==> irp.systemBuffer.Length >= 13
    modifies irp, irp.systemBuffer
    ensures irp.systemBuffer == null ==> r == Failed(StatusBufferAllZeros) && unchanged(irp)
    ensures irp.systemBuffer != null && stack.inputBufferLength == 0 ==>
      r == Failed(StatusUnsuccessful) && unchanged(irp, irp.systemBuffer)
    ensures irp.systemBuffer != null && stack.inputBufferLength > 0 ==>
      var input := old(irp.systemBuffer[..stack.inputBufferLength]);
      if Utf8.Decode(input).None? then r == Panic && unchanged(irp, irp.systemBuffer)
      else
        && r == Done(())
        && irp.status == StatusSuccess && irp.information == 13
        && irp.systemBuffer[..13] == Utf8.Encode(PING_REPLY)
        && irp.systemBuffer[13..] == old(irp.systemBuffer[13..])
  {
    PingReplyBytes();
    var ioctlBuffer := new IoctlBuffer(stack, irp);
    var input := ioctlBuffer.GetBufToStr();
    if !input.Done? {
      match input {
        case Failed(e) => r := Failed(e);
        case Panic => r := Panic;
      }
      return;
    }
    var sent := ioctlBuffer.SendStr(PING_REPLY);
    if sent.Err? {
      // `send_str` fails only on a null system buffer, which `get_buf_to_str` already refused
      assert false;
    }
    r := Done(());
  }

  /**
   * `ioctl_handler_get_kernel_msg_len`, over the two global queues `DRIVER_MESSAGES` (`live`)
   * and `DRIVER_MESSAGES_CACHE` (`cache`), either of which may be null. Drain the live queue,
   * append what it held to the cache, and write the serialised size of the whole cache, a
   * `usize`, to the front of the system buffer. A size of 0 (serialising failed) is
   * `NoDataToSend`, after the cache has already taken the events. When the cache is null the
   * events drained from the live queue are dropped.
   */
  method IoctlHandlerGetKernelMsgLen(irp: Irp, live: DriverMessageQueue?, cache: DriverMessageQueue?,
                                     irql: nat, lockedIrql: nat, serialize: Serializer)
    returns (r: Result<(), DriverError>)
    requires irp.systemBuffer != null ==> irp.systemBuffer.Length >= 8
    requires live != null ==> live.Valid()
    requires cache != null ==> cache.Valid()
    requires live != cache
    modifies irp, irp.systemBuffer, live, cache
    ensures live != null ==> live.Valid()
    ensures cache != null ==> cache.Valid()
    ensures irp.status == old(irp.status)
    ensures irp.systemBuffer == null ==> r == Err(NullPtr) && unchanged(irp)
    ensures irp.systemBuffer == null || live == null ==> (live != null ==> unchanged(live)) && (cache != null ==> unchanged(cache))
    ensures irp.systemBuffer != null && live == null ==> r == Err(DriverMessagePtrNull) && unchanged(irp, irp.systemBuffer)
    ensures irp.systemBuffer != null && live != null && !(IrqlAllows(irql, lockedIrql) && !old(live.isEmpty)) ==>
      r == Err(NoDataToSend) && unchanged(irp, irp.systemBuffer, live) && (cache != null ==> unchanged(cache))
    ensures irp.systemBuffer != null && live != null && IrqlAllows(irql, lockedIrql) && !old(live.isEmpty) ==>
      && live.isEmpty && live.data == NoMessages()
      && (cache == null ==> r == Err(DriverMessagePtrNull) && unchanged(irp, irp.systemBuffer))
      && (cache != null ==>
            && !cache.isEmpty
            && cache.data == old(cache.data).Then(old(live.data))
            && var n := SerializedLen(serialize, cache.data);
            && (n == 0 ==> r == Err(NoDataToSend) && unchanged(irp, irp.systemBuffer))
            && (n > 0 ==>
                  && r == Ok(())
                  && irp.information == 8
                  && irp.systemBuffer[..8] == LeBytes(n, 8)
                  && irp.systemBuffer[8..] == old(irp.systemBuffer[8..])))
  {
    if irp.systemBuffer == null {
      return Err(NullPtr);
    }
    if live == null {
      return Err(DriverMessagePtrNull);
    }
    var drained := live.ExtractAll(irql, lockedIrql);
    if drained.None? {
      return Err(NoDataToSend);
    }
    if cache == null {
      return Err(DriverMessagePtrNull);
    }
    var _, lenOfResponse := cache.AddExistingQueue(drained.value, serialize);
    if lenOfResponse == 0 {
      return Err(NoDataToSend);
    }
    irp.information := 8;
    CopyMemory(irp.systemBuffer, LeBytes(lenOfResponse, 8));
    r := Ok(());
  }

  /**
   * What `ioctl_handler_send_kernel_msgs_to_userland` relies on: a non-null system buffer has
   * room for the serialised contents of a non-null cache. The handler copies that many bytes
   * without comparing them with the buffer's length.
   */
  predicate ReplyFits(irp: Irp, cache: DriverMessageQueue?, serialize: Serializer)
    reads irp, cache
  {
    irp.systemBuffer != null && cache != null ==> SerializedLen(serialize, cache.data) <= irp.systemBuffer.Length
  }

  /**
   * `ioctl_handler_send_kernel_msgs_to_userland`: drain the cache and copy the serialised
   * batch to the front of the system buffer, its byte count in `Information`. A failing
   * serialisation is `CouldNotSerialize`, and the drained events are lost.
   */
  method IoctlHandlerSendKernelMsgsToUserland(irp: Irp, cache: DriverMessageQueue?,
                                              irql: nat, lockedIrql: nat, serialize: Serializer)
    returns (r: Result<(), DriverError>)
    requires cache != null ==> cache.Valid()
    requires ReplyFits(irp, cache, serialize)
    modifies irp, irp.systemBuffer, cache
    ensures cache != null ==> cache.Valid()
    ensures irp.status == old(irp.status)
    ensures irp.systemBuffer == null ==> r == Err(NullPtr) && unchanged(irp) && (cache != null ==> unchanged(cache))
    ensures irp.systemBuffer != null && cache == null ==> r == Err(DriverMessagePtrNull) && unchanged(irp, irp.systemBuffer)
    ensures irp.systemBuffer != null && cache != null && !(IrqlAllows(irql, lockedIrql) && !old(cache.isEmpty)) ==>
      r == Err(NoDataToSend) && unchanged(irp, irp.systemBuffer, cache)
    ensures irp.systemBuffer != null && cache != null && IrqlAllows(irql, lockedIrql) && !old(cache.isEmpty) ==>
      && cache.isEmpty && cache.data == NoMessages()
      && match serialize(old(cache.data))
         case None => r == Err(CouldNotSerialize) && unchanged(irp, irp.systemBuffer)
         case Some(bytes) =>
           && r == Ok(())
           && irp.information == |bytes|
           && irp.systemBuffer[..|bytes|] == bytes
           && irp.systemBuffer[|bytes|..] == old(irp.systemBuffer[|bytes|..])
  {
    if irp.systemBuffer == null {
      return Err(NullPtr);
    }
    if cache == null {
      return Err(DriverMessagePtrNull);
    }
    var data := cache.ExtractAll(irql, lockedIrql);
    if data.None? {
      return Err(NoDataToSend);
    }
    var encoded := serialize(data.value);
    if encoded.None? {
      return Err(CouldNotSerialize);
    }
    var encodedData := encoded.value;
    irp.information := |encodedData|;
    CopyMemory(irp.systemBuffer, encodedData);
    r := Ok(());
  }

  /**
   * The two-IOCTL fetch as the engine drives it, with nothing queued in between: the size the
   * first reply reports is exactly the number of bytes the second one delivers, and those
   * bytes are the serialisation of the earlier cache followed by everything the live queue
   * held. Both queues are left empty.
   */
  method FetchKernelMessages(sizeIrp: Irp, dataIrp: Irp, live: DriverMessageQueue, cache: DriverMessageQueue,
                             serialize: Serializer)
    returns (size: Result<(), DriverError>, sent: Result<(), DriverError>)
    requires sizeIrp.systemBuffer != null && sizeIrp.systemBuffer.Length >= 8
    requires dataIrp.systemBuffer != null && dataIrp != sizeIrp && dataIrp.systemBuffer != sizeIrp.systemBuffer
    requires live.Valid() && cache.Valid() && live != cache
    requires SerializedLen(serialize, cache.data.Then(live.data)) <= dataIrp.systemBuffer.Length
    requires !live.isEmpty
    modifies sizeIrp, sizeIrp.systemBuffer, dataIrp, dataIrp.systemBuffer, live, cache
    ensures live.isEmpty && live.data == NoMessages() && cache.data == NoMessages()
    ensures var batch := old(cache.data).Then(old(live.data));
      size.Ok? ==>
        && serialize(batch).Some?
        && FromLe(sizeIrp.systemBuffer[..8]) == |serialize(batch).value|
        && sent == Ok(())
        && dataIrp.information == |serialize(batch).value|
        && dataIrp.systemBuffer[..dataIrp.information] == serialize(batch).value
  {
    size := IoctlHandlerGetKernelMsgLen(sizeIrp, live, cache, PASSIVE_LEVEL, PASSIVE_LEVEL, serialize);
    ghost var n := SerializedLen(serialize, cache.data);
    sent := IoctlHandlerSendKernelMsgsToUserland(dataIrp, cache, PASSIVE_LEVEL, PASSIVE_LEVEL, serialize);
    if size.Ok? {
      UsizeRoundTrip(n);
    }
  }

  /** The text `ioctl_handler_ping_return_struct` sends back. */
  const KERNEL_PING_REPLY: string := "Msg received from the Kernel!"

  /** The reply is 29 ASCII characters, so it fills a ping with room to spare. */
  lemma KernelPingReplyAscii()
    ensures |KERNEL_PING_REPLY| == 29 <= IoctlCodes.SANC_IOCTL_PING_CAPACITY
    ensures forall i :: 0 <= i < |KERNEL_PING_REPLY| ==> (KERNEL_PING_REPLY[i] as int) < 0x80
  {
  }

  /**
   * `ioctl_handler_ping_return_struct`: `input` is the `SancIoctlPing` the caller placed in the
   * system buffer. Refuse a null buffer, refuse a text that is not UTF-8, otherwise build a
   * fresh ping holding "Msg received from the Kernel!", report its size in `Information` and
   * copy its bytes over the front of the system buffer. `layout` gives the bytes of a ping in
   * memory, which the compiler chooses; `IoStatus.Status` is left alone.
   */
  method IoctlHandlerPingReturnStruct(stack: IoStackLocation, irp: Irp, input: IoctlCodes.SancIoctlPing,
                                      layout: IoctlCodes.SancIoctlPing -> seq<byte>)
    returns (r: Result<(), NtStatus>, reply: Option<IoctlCodes.SancIoctlPing>)
    requires IoctlCodes.TextOf(input).Some?
    requires forall p :: |layout(p)| == IoctlCodes.SANC_IOCTL_PING_SIZE
    requires irp.systemBuffer != null ==> irp.systemBuffer.Length >= IoctlCodes.SANC_IOCTL_PING_SIZE
    modifies irp, irp.systemBuffer
    ensures irp.status == old(irp.status)
    ensures irp.systemBuffer == null ==> r == Err(StatusBufferAllZeros) && reply.None? && unchanged(irp)
    ensures irp.systemBuffer != null && Utf8.Decode(IoctlCodes.TextOf(input).value).None? ==>
      r == Err(StatusUnsuccessful) && reply.None? && unchanged(irp, irp.systemBuffer)
    ensures irp.systemBuffer != null && Utf8.Decode(IoctlCodes.TextOf(input).value).Some? ==>
      && r == Ok(()) && reply.Some?
      && IoctlCodes.IsPingOf(reply.value, KERNEL_PING_REPLY)
      && irp.information == IoctlCodes.SANC_IOCTL_PING_SIZE
      && irp.systemBuffer[..IoctlCodes.SANC_IOCTL_PING_SIZE] == layout(reply.value)
      && irp.systemBuffer[IoctlCodes.SANC_IOCTL_PING_SIZE..] == old(irp.systemBuffer[IoctlCodes.SANC_IOCTL_PING_SIZE..])
  {
    reply := None;
    var ioctlBuffer := new IoctlBuffer(stack, irp);
    var received := ioctlBuffer.Receive();
    if received.Err? {
      return Err(received.error), None;
    }
    if ioctlBuffer.buf == null {
      // the received buffer was checked for null by `receive`
      assert false;
    }
    var inputText := input.version[..input.strLen];
    var inputStr := Utf8.Decode(inputText);
    if inputStr.None? {
      return Err(StatusUnsuccessful), None;
    }
    if irp.systemBuffer == null {
      assert false;
    }
    // 29 bytes always fit the 256-byte array, so the capacity check never refuses
    KernelPingReplyAscii();
    var outBuf := SendPing(irp, KERNEL_PING_REPLY, layout);
    r, reply := Ok(()), Some(outBuf);
  }

  /**
   * The tail of `ioctl_handler_ping_return_struct`: fill a fresh ping with `msg`, set
   * `Information` to the struct's size and copy the struct over the front of the system buffer.
   */
  method SendPing(irp: Irp, msg: string, layout: IoctlCodes.SancIoctlPing -> seq<byte>)
    returns (reply: IoctlCodes.SancIoctlPing)
    requires forall i :: 0 <= i < |msg| ==> (msg[i] as int) < 0x80
    requires |msg| <= IoctlCodes.SANC_IOCTL_PING_CAPACITY
    requires forall p :: |layout(p)| == IoctlCodes.SANC_IOCTL_PING_SIZE
    requires irp.systemBuffer != null && irp.systemBuffer.Length >= IoctlCodes.SANC_IOCTL_PING_SIZE
    modifies irp, irp.systemBuffer
    ensures IoctlCodes.IsPingOf(reply, msg)
    ensures irp.status == old(irp.status)
    ensures irp.information == IoctlCodes.SANC_IOCTL_PING_SIZE
    ensures irp.systemBuffer[..IoctlCodes.SANC_IOCTL_PING_SIZE] == layout(reply)
    ensures irp.systemBuffer[IoctlCodes.SANC_IOCTL_PING_SIZE..] == old(irp.systemBuffer[IoctlCodes.SANC_IOCTL_PING_SIZE..])
  {
    reply := IoctlCodes.AsciiPing(msg);
    irp.information := IoctlCodes.SANC_IOCTL_PING_SIZE;
    CopyMemory(irp.systemBuffer, layout(reply));
  }
}
