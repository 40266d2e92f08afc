/**
 * The driver's stand-alone ping handler: it checks the request by hand instead of through
 * `IoctlBuffer`, so its checks come in a different order (a zero input length first).
 */
module Ioctls {
  import opened Base
  import opened Wdk
  import Utf8
  import DeviceComms

  /**
   * `ioctl_handler_ping`: zero input bytes is STATUS_BUFFER_TOO_SMALL, a null system buffer
   * STATUS_BUFFER_ALL_ZEROS, input that is not UTF-8 makes `unwrap` panic; otherwise report
   * success and the 13 bytes of "Msg received!" in `IoStatus` and copy them to the front of
   * the system buffer. The output buffer's length is never consulted, so the buffer is
   * required to hold the reply.
   */
  method IoctlHandlerPing(stack: IoStackLocation, irp: Irp) returns (r: Outcome<(), NtStatus>)
    requires irp.HoldsInput(stack)
    requires irp.systemBuffer != null ==> irp.systemBuffer.Length >= 13
    modifies irp, irp.systemBuffer
    ensures stack.inputBufferLength == 0 ==> r == Failed(StatusBufferTooSmall) && unchanged(irp) && (irp.systemBuffer != null ==> unchanged(irp.systemBuffer))
    ensures stack.inputBufferLength > 0 && irp.systemBuffer == null ==> r == Failed(StatusBufferAllZeros) && unchanged(irp)
    ensures stack.inputBufferLength > 0 && irp.systemBuffer != null ==>
      var input := old(irp.systemBuffer[..stack.inputBufferLength]);
      if Utf8.Decode(input).None? then r == Panic && unchanged(irp, irp.systemBuffer)
      else
        && r == Done(())
        && irp.status == StatusSuccess && irp.information == 13
        && irp.systemBuffer[..13] == Utf8.Encode(DeviceComms.PING_REPLY)
        && irp.systemBuffer[13..] == old(irp.systemBuffer[13..])
  {
    var inputLen := stack.inputBufferLength;
    if inputLen == 0 {
      return Failed(StatusBufferTooSmall);
    }
    var inputBuffer := irp.systemBuffer;
    if inputBuffer == null {
      return Failed(StatusBufferAllZeros);
    }
    if inputBuffer == null {
      // the buffer address is tested a second time; the test can never succeed
      assert false;
    }
    var input := inputBuffer[..inputLen];
    if |input| == 0 {
      // the slice has `input_len` bytes and `input_len` is not zero
      assert false;
    }
    if Utf8.Decode(input).None? {
      return Panic;
    }
    irp.status := StatusSuccess;
    DeviceComms.PingReplyBytes();
    var response := Utf8.Encode(DeviceComms.PING_REPLY);
    irp.information := |response|;
    if irp.systemBuffer != null {
      CopyMemory(irp.systemBuffer, response);
    } else {
      assert false;
    }
    r := Done(());
  }
}
