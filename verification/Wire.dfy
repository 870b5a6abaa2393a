/** What crosses the device boundary: control codes, the unlock request and the status record. */
module Wire {
  import opened Common
  import opened DriverMachine
  import opened DriverObject

  // -------- control codes --------

  /** CTL_CODE of the driver's header, and ctlCode of both clients. */
  function CtlCode(device: bv32, function_: bv32, method_: bv32, access: bv32): bv32 {
    (device << 16) | (access << 14) | (function_ << 2) | method_
  }

  const FILE_DEVICE_UNKNOWN: bv32 := 0x22
  const METHOD_BUFFERED: bv32 := 0
  const FILE_ANY_ACCESS: bv32 := 0
  const FILE_WRITE_ACCESS: bv32 := 2

  datatype Handler = GetNonceHandler | UnlockHandler | HeartbeatHandler | StatusHandler

  /** LgDispatchDeviceControl: the handler a code selects, None for an invalid request. */
  function Dispatch(code: bv32): Option<Handler> {
    if code == CtlCode(FILE_DEVICE_UNKNOWN, 0x801, METHOD_BUFFERED, FILE_ANY_ACCESS) then Some(GetNonceHandler)
    else if code == CtlCode(FILE_DEVICE_UNKNOWN, 0x802, METHOD_BUFFERED, FILE_ANY_ACCESS) then Some(UnlockHandler)
    else if code == CtlCode(FILE_DEVICE_UNKNOWN, 0x803, METHOD_BUFFERED, FILE_WRITE_ACCESS) then Some(HeartbeatHandler)
    else if code == CtlCode(FILE_DEVICE_UNKNOWN, 0x804, METHOD_BUFFERED, FILE_ANY_ACCESS) then Some(StatusHandler)
    else None
  }

  predicate InFields(device: bv32, function_: bv32, method_: bv32, access: bv32) {
    device < 0x1_0000 && function_ < 0x1000 && method_ < 4 && access < 4
  }

  /** On its field widths a control code gives its four fields back. */
  lemma CtlCodeInvertible(device: bv32, function_: bv32, method_: bv32, access: bv32)
    requires InFields(device, function_, method_, access)
    ensures var c := CtlCode(device, function_, method_, access);
      c >> 16 == device && (c >> 14) & 3 == access && (c >> 2) & 0xFFF == function_ && c & 3 == method_
  {
  }

  /** So a code selects a handler exactly when its fields are that handler's. */
  lemma DispatchExactly(device: bv32, function_: bv32, method_: bv32, access: bv32)
    requires InFields(device, function_, method_, access)
    ensures var h := Dispatch(CtlCode(device, function_, method_, access));
      && (h == Some(GetNonceHandler) <==> device == 0x22 && function_ == 0x801 && method_ == 0 && access == 0)
      && (h == Some(UnlockHandler) <==> device == 0x22 && function_ == 0x802 && method_ == 0 && access == 0)
      && (h == Some(HeartbeatHandler) <==> device == 0x22 && function_ == 0x803 && method_ == 0 && access == 2)
      && (h == Some(StatusHandler) <==> device == 0x22 && function_ == 0x804 && method_ == 0 && access == 0)
  {
    CtlCodeInvertible(device, function_, method_, access);
    CtlCodeInvertible(0x22, 0x801, 0, 0);
    CtlCodeInvertible(0x22, 0x802, 0, 0);
    CtlCodeInvertible(0x22, 0x803, 0, 2);
    CtlCodeInvertible(0x22, 0x804, 0, 0);
  }

  /**
   * The constants of ioctl_windows.go:17-20, which its comment says must match the header, do not: they need
   * 34 bits, and cut to 32 they select no handler. (The client uses ctlCode instead.)
   */
  lemma UnusedConstantsMatchNothing(function_: bv64)
    requires 0x801 <= function_ <= 0x804
    ensures var c: bv64 := (0x8000_0000 | function_) << 2; c > 0xFFFF_FFFF && Dispatch((c & 0xFFFF_FFFF) as bv32) == None
  {
    assert function_ == 0x801 || function_ == 0x802 || function_ == 0x803 || function_ == 0x804;
  }

  // -------- the unlock request --------

  /** ioctlUnlockCall's buffer. */
  method UnlockBuffer(response: Bytes, derived: Bytes) returns (r: Option<Bytes>)
    ensures r.Some? <==> |response| == 32 && |derived| == 32
    ensures r.Some? ==> |r.value| == 64 && r.value[0..32] == response && r.value[32..64] == derived
    ensures r.Some? ==> ParseUnlock(r.value) == Unlock(UNLOCK_REQUEST_LEN, response, derived)
  {
    if |response| != 32 || |derived| != 32 { return None; }
    var buf := response + derived;
    assert buf[..32] == response && buf[32..64] == derived;
    return Some(buf);
  }

  /** What the driver takes from any request: 32 bytes of response, then 32 of key. */
  lemma RequestLayout(buffer: Bytes)
    ensures ParseUnlock(buffer).Unlock? && ParseUnlock(buffer).inLen == |buffer|
    ensures |buffer| >= 64 ==> ParseUnlock(buffer).response == buffer[0..32] && ParseUnlock(buffer).derived == buffer[32..64]
  {
  }

  // -------- little-endian fields --------

  function Le32(v: bv32): (b: Bytes)
    ensures |b| == 4
  {
    [(v & 0xFF) as bv8, ((v >> 8) & 0xFF) as bv8, ((v >> 16) & 0xFF) as bv8, (v >> 24) as bv8]
  }

  function Le64(v: bv64): (b: Bytes)
    ensures |b| == 8
  {
    [(v & 0xFF) as bv8, ((v >> 8) & 0xFF) as bv8, ((v >> 16) & 0xFF) as bv8, ((v >> 24) & 0xFF) as bv8,
     ((v >> 32) & 0xFF) as bv8, ((v >> 40) & 0xFF) as bv8, ((v >> 48) & 0xFF) as bv8, (v >> 56) as bv8]
  }

  /** leU32. */
  function ReadU32(b: Bytes): bv32
    requires |b| == 4
  {
    b[0] as bv32 | (b[1] as bv32 << 8) | (b[2] as bv32 << 16) | (b[3] as bv32 << 24)
  }

  /** leI64; the conversion to a signed integer keeps the bits. */
  function ReadI64(b: Bytes): bv64
    requires |b| == 8
  {
    b[0] as bv64 | (b[1] as bv64 << 8) | (b[2] as bv64 << 16) | (b[3] as bv64 << 24) |
    (b[4] as bv64 << 32) | (b[5] as bv64 << 40) | (b[6] as bv64 << 48) | (b[7] as bv64 << 56)
  }

  lemma Le32RoundTrip(v: bv32)
    ensures ReadU32(Le32(v)) == v
  {
  }

  lemma Le64RoundTrip(v: bv64)
    ensures ReadI64(Le64(v)) == v
  {
  }

  // -------- the status record --------

  /** The two times as their 64-bit patterns, so that negative values are included. */
  datatype StatusReply = StatusReply(version: bv32, permissive: bv8, expires: bv64, tamper: bv32, heartbeat: bv64)

  /** LG_STATUS_REPLY as the driver lays it out, naturally aligned; the padding holds whatever was there. */
  function Record(s: StatusReply, pad1: Bytes, pad2: Bytes): (b: Bytes)
    requires |pad1| == 3 && |pad2| == 4
    ensures |b| == STATUS_REPLY_LEN
  {
    Le32(s.version) + [s.permissive] + pad1 + Le64(s.expires) + Le32(s.tamper) + pad2 + Le64(s.heartbeat)
  }

  /** getStatus's unpacking. */
  function ReadStatus(buf: Bytes): StatusReply
    requires |buf| >= STATUS_REPLY_LEN
  {
    StatusReply(ReadU32(buf[0..4]), buf[4], ReadI64(buf[8..16]), ReadU32(buf[16..20]), ReadI64(buf[24..32]))
  }

  /** The client reads back every field, whatever the padding and the rest of its 40-byte buffer hold. */
  lemma StatusRoundTrip(s: StatusReply, pad1: Bytes, pad2: Bytes, rest: Bytes)
    requires |pad1| == 3 && |pad2| == 4
    ensures ReadStatus(Record(s, pad1, pad2) + rest) == s
  {
    var buf := Record(s, pad1, pad2) + rest;
    assert buf[0..4] == Le32(s.version) && buf[4] == s.permissive;
    assert buf[8..16] == Le64(s.expires) && buf[16..20] == Le32(s.tamper) && buf[24..32] == Le64(s.heartbeat);
    Le32RoundTrip(s.version);
    Le32RoundTrip(s.tamper);
    Le64RoundTrip(s.expires);
    Le64RoundTrip(s.heartbeat);
  }

  // -------- the record by offset --------

  /** The field at `at`, least significant byte first. */
  function Word32At(b: Bytes, at: nat): bv32
    requires at + 4 <= |b|
  {
    b[at] as bv32 | (b[at + 1] as bv32 << 8) | (b[at + 2] as bv32 << 16) | (b[at + 3] as bv32 << 24)
  }

  function Word64At(b: Bytes, at: nat): bv64
    requires at + 8 <= |b|
  {
    Word32At(b, at) as bv64 | (Word32At(b, at + 4) as bv64 << 32)
  }

  lemma Word64Parts(b: Bytes)
    requires |b| == 8
    ensures ReadI64(b) == Word64At(b, 0)
  {
    HalvesJoin(b[0], b[1], b[2], b[3], b[4], b[5], b[6], b[7]);
  }

  lemma HalvesJoin(b0: bv8, b1: bv8, b2: bv8, b3: bv8, b4: bv8, b5: bv8, b6: bv8, b7: bv8)
    ensures b0 as bv64 | (b1 as bv64 << 8) | (b2 as bv64 << 16) | (b3 as bv64 << 24) |
      (b4 as bv64 << 32) | (b5 as bv64 << 40) | (b6 as bv64 << 48) | (b7 as bv64 << 56) ==
      (b0 as bv32 | (b1 as bv32 << 8) | (b2 as bv32 << 16) | (b3 as bv32 << 24)) as bv64 |
      ((b4 as bv32 | (b5 as bv32 << 8) | (b6 as bv32 << 16) | (b7 as bv32 << 24)) as bv64 << 32)
  {
  }

  /** What the client reads: version at 0, flag at 4, expiry at 8, count at 16, heartbeat at 24. */
  lemma ReadLayout(buf: Bytes)
    requires |buf| >= 32
    ensures var s := ReadStatus(buf);
      && s.version == Word32At(buf, 0) && s.permissive == buf[4] && s.expires == Word64At(buf, 8)
      && s.tamper == Word32At(buf, 16) && s.heartbeat == Word64At(buf, 24)
  {
    Word64Parts(buf[8..16]);
    Word64Parts(buf[24..32]);
  }

  /** And what the driver wrote there. */
  lemma RecordLayout(s: StatusReply, pad1: Bytes, pad2: Bytes)
    requires |pad1| == 3 && |pad2| == 4
    ensures var b := Record(s, pad1, pad2);
      && |b| == 32
      && Word32At(b, 0) == s.version && b[4] == s.permissive && Word64At(b, 8) == s.expires
      && Word32At(b, 16) == s.tamper && Word64At(b, 24) == s.heartbeat
  {
    var b := Record(s, pad1, pad2);
    StatusRoundTrip(s, pad1, pad2, []);
    assert b + [] == b;
    ReadLayout(b);
  }
}
