/**
 * The parts of the Windows kernel's I/O request the driver's IOCTL handlers read and write:
 * the IRP's `IoStatus` and its `AssociatedIrp.SystemBuffer`, the stack location's buffer
 * lengths, the NTSTATUS values they return, and the memory copy into the system buffer.
 */
module Wdk {
  import opened Base

  /** The NTSTATUS values the handlers use. */
  datatype NtStatus =
    | StatusSuccess
    | StatusUnsuccessful
    | StatusBufferTooSmall
    | StatusBufferAllZeros
    | StatusInvalidBufferSize

  const PASSIVE_LEVEL: nat := 0
  const APC_LEVEL: nat := 1

  /** `Parameters.DeviceIoControl` of the current stack location. */
  datatype IoStackLocation = IoStackLocation(inputBufferLength: uint32, outputBufferLength: uint32)

  /**
   * An IRP for a METHOD_BUFFERED request: the I/O manager's system buffer (null, or an
   * array holding the caller's input) and the `IoStatus` the handler fills in.
   */
  class Irp {
    const systemBuffer: array?<byte>
    var status: NtStatus
    var information: uint64

    constructor (systemBuffer: array?<byte>)
      ensures this.systemBuffer == systemBuffer && status == StatusUnsuccessful && information == 0
    {
      this.systemBuffer := systemBuffer;
      status := StatusUnsuccessful;
      information := 0;
    }

    /**
     * What the I/O manager guarantees: a non-null system buffer holds at least the
     * `InputBufferLength` bytes the caller sent.
     */
    predicate HoldsInput(stack: IoStackLocation)
      reads this
    {
      systemBuffer != null ==> systemBuffer.Length >= stack.inputBufferLength
    }
  }

  /**
   * `RtlCopyMemory(dst, src, |src|)`: the first `|src|` bytes of `dst` become `src` and the
   * rest keep their values.
   */
  method CopyMemory(dst: array<byte>, src: seq<byte>)
    requires |src| <= dst.Length
    modifies dst
    ensures dst[..|src|] == src
    ensures dst[|src|..] == old(dst[|src|..])
  {
    for i := 0 to |src|
      invariant dst[..i] == src[..i]
      invariant dst[i..] == old(dst[i..])
    {
      dst[i] := src[i];
      assert dst[i + 1..] == old(dst[i + 1..]);
    }
  }
}
