/** EnsureMemoryLock: making the legacy VGA ROM area writable (UNLOCK) or read-only
    (LOCK). Three mechanisms are tried in turn (the Legacy Region protocol, the Legacy
    Region 2 protocol, a fixed MTRR), and whether one worked is judged only by probing
    whether a write to the start of the area sticks. The probe results and the protocol
    lookups are inputs; the hardware effects are not modelled. */
module MemoryLock {
  import opened Common
  import opened EfiStatus

  datatype LockOperation = Lock | Unlock

  /** FIXED_MTRR_SIZE: the longest area the MTRR fallback is used for. */
  const FIXED_MTRR_SIZE: nat := 0x20000

  /** A region protocol as the function meets it: what LocateProtocol returned and, had it
      been located and asked to (un)lock, whether the area was writable afterwards. */
  datatype RegionProtocol = RegionProtocol(locateStatus: Status, writableAfter: bool)

  /** The platform's answers: writability before anything is done, the two protocols,
      whether MTRRs are supported, and writability after the MTRR change. */
  datatype LockPlatform = LockPlatform(
    writableBefore: bool,
    legacyRegion: RegionProtocol,
    legacyRegion2: RegionProtocol,
    mtrrSupported: bool,
    writableAfterMtrr: bool)

  /** The probe shows the state the operation asks for: writable for UNLOCK, not for LOCK. */
  predicate Achieved(op: LockOperation, writable: bool) {
    writable <==> op == Unlock
  }

  /** The status of one probe after a mechanism ran. */
  function ProbeStatus(op: LockOperation, writable: bool): (r: Status)
    ensures r == SUCCESS <==> Achieved(op, writable)
    ensures r != SUCCESS ==> r == DEVICE_ERROR
  {
    if Achieved(op, writable) then SUCCESS else DEVICE_ERROR
  }

  /** One protocol step, run when the status so far is an error: the LocateProtocol error
      becomes the status, otherwise the probe after the protocol call decides it. */
  function TryRegion(status: Status, op: LockOperation, p: RegionProtocol): (r: Status)
  {
    if !IsError(status) then status
    else if IsError(p.locateStatus) then p.locateStatus
    else ProbeStatus(op, p.writableAfter)
  }

  /** The MTRR step applies to the area. */
  predicate MtrrApplies(length: U32, platform: LockPlatform) {
    platform.mtrrSupported && length <= FIXED_MTRR_SIZE
  }

  /** A mechanism that ran and left the area in the requested state. */
  predicate SomeMechanismWorked(length: U32, op: LockOperation, platform: LockPlatform) {
    || Achieved(op, platform.writableBefore)
    || (!IsError(platform.legacyRegion.locateStatus) && Achieved(op, platform.legacyRegion.writableAfter))
    || (!IsError(platform.legacyRegion2.locateStatus) && Achieved(op, platform.legacyRegion2.writableAfter))
    || (MtrrApplies(length, platform) && Achieved(op, platform.writableAfterMtrr))
  }

  /** EnsureMemoryLock(StartAddress, Length, Operation): a zero start or length is rejected;
      otherwise the call succeeds exactly when the area already was in the requested state
      or one of the mechanisms available got it there, and never returns a warning. When
      every mechanism fails the status tells why the last step failed: DEVICE_ERROR after a
      failed probe, or the LocateProtocol error when Legacy Region 2 is absent and the MTRR
      step does not apply. */
  function EnsureMemoryLock(start: U64, length: U32, op: LockOperation, platform: LockPlatform): (r: Status)
    ensures start == 0 || length == 0 ==> r == INVALID_PARAMETER
    ensures start != 0 && length != 0 ==> (r == SUCCESS <==> SomeMechanismWorked(length, op, platform))
    ensures r == SUCCESS || IsError(r)
    ensures start != 0 && length != 0 && r != SUCCESS && MtrrApplies(length, platform) ==> r == DEVICE_ERROR
    ensures start != 0 && length != 0 && r != SUCCESS && !MtrrApplies(length, platform) ==>
              r == (if IsError(platform.legacyRegion2.locateStatus) then platform.legacyRegion2.locateStatus else DEVICE_ERROR)
  {
    if start == 0 || length == 0 then INVALID_PARAMETER
    else
      var s0 := if Achieved(op, platform.writableBefore) then SUCCESS else NOT_READY;
      var s1 := TryRegion(s0, op, platform.legacyRegion);
      var s2 := TryRegion(s1, op, platform.legacyRegion2);
      if IsError(s2) && MtrrApplies(length, platform) then ProbeStatus(op, platform.writableAfterMtrr)
      else s2
  }
}
