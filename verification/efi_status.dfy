/** EFI_STATUS: a UINTN whose high bit marks an error code (UEFI Specification,
    Appendix D "Status Codes"). Values with the high bit clear and not zero are
    warnings, which EFI_ERROR does not treat as failures. */
module EfiStatus {
  import opened Common

  type Status = U64

  const ERROR_BIT: int := 0x8000_0000_0000_0000

  const SUCCESS: Status := 0
  const INVALID_PARAMETER: Status := ERROR_BIT + 2
  const UNSUPPORTED: Status := ERROR_BIT + 3
  const BUFFER_TOO_SMALL: Status := ERROR_BIT + 5
  const NOT_READY: Status := ERROR_BIT + 6
  const DEVICE_ERROR: Status := ERROR_BIT + 7
  const NOT_FOUND: Status := ERROR_BIT + 14
  const ABORTED: Status := ERROR_BIT + 21
  const SECURITY_VIOLATION: Status := ERROR_BIT + 26

  /** EFI_ERROR(s): the high bit of the status is set. */
  predicate IsError(s: Status) {
    s >= ERROR_BIT
  }
}
