/**
 * IOCTL control codes and the fixed-capacity ping message shared by the driver and the
 * user-mode engine (the `shared_no_std` crate, and the older `shared` crate's single code).
 */
module IoctlCodes {
  import opened Base
  import Utf8

  const FILE_DEVICE_UNKNOWN: bv32 := 34
  const METHOD_NEITHER: bv32 := 3
  const METHOD_BUFFERED: bv32 := 0
  const FILE_ANY_ACCESS: bv32 := 0

  /**
   * The `CTL_CODE` macro in the Windows devioctl.h layout: device type in bits 16..31,
   * required access in bits 14..15, function in bits 2..13, transfer method in bits 0..1.
   */
  function CtlCode(deviceType: bv32, functionCode: bv32, transferMethod: bv32, access: bv32): bv32
  {
    (deviceType << 16) | (access << 14) | (functionCode << 2) | transferMethod
  }

  function DeviceTypeOf(code: bv32): bv32 { code >> 16 }
  function AccessOf(code: bv32): bv32 { (code >> 14) & 3 }
  function FunctionOf(code: bv32): bv32 { (code >> 2) & 0xFFF }
  function MethodOf(code: bv32): bv32 { code & 3 }

  /** The field ranges `CTL_CODE` is meant for: within them no field spills into another. */
  predicate FieldsInRange(deviceType: bv32, functionCode: bv32, transferMethod: bv32, access: bv32)
  {
    deviceType < 0x1_0000 && functionCode < 0x1000 && transferMethod < 4 && access < 4
  }

  /** Within range the fields occupy disjoint bits, so the OR is a plain sum. */
  lemma CtlCodeIsSum(deviceType: bv32, functionCode: bv32, transferMethod: bv32, access: bv32)
    requires FieldsInRange(deviceType, functionCode, transferMethod, access)
    ensures CtlCode(deviceType, functionCode, transferMethod, access)
         == (deviceType << 16) + (access << 14) + (functionCode << 2) + transferMethod
  {
  }

  /** Within range every field decodes back exactly from the packed code. */
  lemma CtlCodeDecodes(deviceType: bv32, functionCode: bv32, transferMethod: bv32, access: bv32)
    requires FieldsInRange(deviceType, functionCode, transferMethod, access)
    ensures var code := CtlCode(deviceType, functionCode, transferMethod, access);
      && DeviceTypeOf(code) == deviceType && FunctionOf(code) == functionCode
      && MethodOf(code) == transferMethod && AccessOf(code) == access
  {
  }

  /** Every 32-bit value is the packing of its own four fields: packing is a bijection. */
  lemma CtlCodeOfFields(code: bv32)
    ensures FieldsInRange(DeviceTypeOf(code), FunctionOf(code), MethodOf(code), AccessOf(code))
    ensures CtlCode(DeviceTypeOf(code), FunctionOf(code), MethodOf(code), AccessOf(code)) == code
  {
  }

  // ****************** IOCTL definitions (shared_no_std) ******************

  const SANC_IOCTL_PING: bv32 := CtlCode(FILE_DEVICE_UNKNOWN, 0x800, METHOD_BUFFERED, FILE_ANY_ACCESS)
  const SANC_IOCTL_PING_WITH_STRUCT: bv32 := CtlCode(FILE_DEVICE_UNKNOWN, 0x801, METHOD_BUFFERED, FILE_ANY_ACCESS)
  const SANC_IOCTL_CHECK_COMPATIBILITY: bv32 := CtlCode(FILE_DEVICE_UNKNOWN, 0x802, METHOD_BUFFERED, FILE_ANY_ACCESS)

  /** The older `shared` crate's ping, which asks for METHOD_NEITHER. */
  const SHARED_SANC_IOCTL_PING: bv32 := CtlCode(FILE_DEVICE_UNKNOWN, 0x800, METHOD_NEITHER, FILE_ANY_ACCESS)

  /** The three buffered codes: their values, their fields, and that no two are equal. */
  lemma BufferedCodes()
    ensures SANC_IOCTL_PING == 0x22_2000
    ensures SANC_IOCTL_PING_WITH_STRUCT == 0x22_2004
    ensures SANC_IOCTL_CHECK_COMPATIBILITY == 0x22_2008
    ensures forall code | code in {SANC_IOCTL_PING, SANC_IOCTL_PING_WITH_STRUCT, SANC_IOCTL_CHECK_COMPATIBILITY} ::
      DeviceTypeOf(code) == FILE_DEVICE_UNKNOWN && MethodOf(code) == METHOD_BUFFERED && AccessOf(code) == FILE_ANY_ACCESS
    ensures FunctionOf(SANC_IOCTL_PING) == 0x800
    ensures FunctionOf(SANC_IOCTL_PING_WITH_STRUCT) == 0x801
    ensures FunctionOf(SANC_IOCTL_CHECK_COMPATIBILITY) == 0x802
    ensures SANC_IOCTL_PING != SANC_IOCTL_PING_WITH_STRUCT
    ensures SANC_IOCTL_PING != SANC_IOCTL_CHECK_COMPATIBILITY
    ensures SANC_IOCTL_PING_WITH_STRUCT != SANC_IOCTL_CHECK_COMPATIBILITY
  {
  }

  /** The `shared` crate's ping code and the fields it decodes to. */
  lemma NeitherPingCode()
    ensures SHARED_SANC_IOCTL_PING == 0x22_2003
    ensures DeviceTypeOf(SHARED_SANC_IOCTL_PING) == 34 && FunctionOf(SHARED_SANC_IOCTL_PING) == 0x800
    ensures AccessOf(SHARED_SANC_IOCTL_PING) == 0 && MethodOf(SHARED_SANC_IOCTL_PING) == METHOD_NEITHER
    ensures SHARED_SANC_IOCTL_PING != SANC_IOCTL_PING
  {
  }

  // ****************** IOCTL message structs ******************

  /** The capacity of the ping message's byte buffer. */
  const SANC_IOCTL_PING_CAPACITY: nat := 256

  /** `size_of::<SancIoctlPing>()` on a 64-bit target: 256 bytes, two `usize` and a `bool`, padded to 8. */
  const SANC_IOCTL_PING_SIZE: uint64 := 280

  /**
   * `SancIoctlPing`: a fixed array of `capacity` bytes of which the first `strLen` hold a
   * UTF-8 text, and a flag that the other side received the ping.
   */
  datatype SancIoctlPing = SancIoctlPing(received: bool, version: seq<byte>, strLen: uint64, capacity: uint64)

  /** `SancIoctlPing::new()`. */
  function NewPing(): (p: SancIoctlPing)
    ensures !p.received && p.strLen == 0 && p.capacity == SANC_IOCTL_PING_CAPACITY
    ensures |p.version| == SANC_IOCTL_PING_CAPACITY && forall i :: 0 <= i < |p.version| ==> p.version[i] == 0
  {
    SancIoctlPing(false, seq(SANC_IOCTL_PING_CAPACITY, _ => 0), 0, SANC_IOCTL_PING_CAPACITY)
  }

  /** `SancIoctlPing::default()`, which the source defines as `new()`. */
  function DefaultPing(): (p: SancIoctlPing)
    ensures p == NewPing()
  {
    NewPing()
  }

  /** The text a receiver reads out of a ping: `version[..str_len]`, when that lies inside the array. */
  function TextOf(p: SancIoctlPing): (r: Option<seq<byte>>)
    ensures r.Some? <==> p.strLen <= |p.version|
    ensures r.Some? ==> |r.value| == p.strLen
  {
    if p.strLen <= |p.version| then Some(p.version[..p.strLen]) else None
  }

  /**
   * Start from `new()`, refuse a text longer than `capacity`, otherwise copy it into the
   * front of `version` and set `str_len` and `received`. The text read back is the text
   * written, and every byte after it is still zero.
   */
  method FillPing(text: seq<byte>) returns (r: Option<SancIoctlPing>)
    ensures r.None? <==> |text| > SANC_IOCTL_PING_CAPACITY
    ensures r.Some? ==> var p := r.value;
      && p.received && p.capacity == SANC_IOCTL_PING_CAPACITY && |p.version| == SANC_IOCTL_PING_CAPACITY
      && TextOf(p) == Some(text)
      && forall i :: |text| <= i < |p.version| ==> p.version[i] == 0
  {
    var message := NewPing();
    if |text| > message.capacity {
      return None;
    }
    // the in-place buffer `message.version`, copied into a mutable array
    var version := new byte[|message.version|](i requires 0 <= i < |message.version| => message.version[i]);
    for i := 0 to |text|
      invariant version[..i] == text[..i]
      invariant forall j :: i <= j < version.Length ==> version[j] == 0
    {
      version[i] := text[i];
    }
    assert version[..][..|text|] == text;
    r := Some(message.(version := version[..], strLen := |text|, received := true));
  }

  /**
   * A ping carrying `msg`: marked received, with the 256-byte capacity, holding the UTF-8
   * text of `msg` followed by zeros, which reads back as `msg`.
   */
  predicate IsPingOf(p: SancIoctlPing, msg: string)
  {
    && p.received
    && p.capacity == SANC_IOCTL_PING_CAPACITY
    && TextOf(p) == Some(Utf8.Encode(msg))
    && Utf8.Decode(TextOf(p).value) == Some(msg)
    && p.strLen == |msg|
    && forall i :: p.strLen <= i < |p.version| ==> p.version[i] == 0
  }

  /** Fills a fresh ping with an ASCII message short enough for the 256-byte array. */
  method AsciiPing(msg: string) returns (p: SancIoctlPing)
    requires forall i :: 0 <= i < |msg| ==> (msg[i] as int) < 0x80
    requires |msg| <= SANC_IOCTL_PING_CAPACITY
    ensures IsPingOf(p, msg)
  {
    Utf8.EncodeAscii(msg);
    Utf8.DecodeEncode(msg);
    var ver := Utf8.Encode(msg);
    var message := FillPing(ver);
    if message.None? {
      assert false;
    }
    p := message.value;
  }
}
