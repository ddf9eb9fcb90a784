/** InstallInt10hHandler: giving a UEFI machine without a video BIOS an Int10h handler, so
    that a legacy-minded boot loader (the Windows 7 installer) finds one. The real-mode
    interrupt vector table (IVT) at physical address 0 and the VGA ROM area at 0xC0000 are
    modelled as byte sequences; the firmware's answers (page allocation, the memory lock
    mechanisms, the display) are inputs. */
module Int10h {
  import opened Common
  import opened EfiStatus
  import MemoryLock
  import Vesa

  const VGA_ROM_ADDRESS: nat := 0xC0000
  const IVT_ADDRESS: nat := 0x00000
  const VGA_ROM_SIZE: nat := 0x10000

  /** sizeof (IVT_ENTRY): a packed { UINT16 Offset; UINT16 Segment; }. */
  const IVT_ENTRY_SIZE: nat := 4
  /** The real-mode IVT: 256 vectors. */
  const IVT_SIZE: nat := 256 * IVT_ENTRY_SIZE
  const INT10H_VECTOR: nat := 0x10

  /** First bytes that mark a ROM area as holding no handler. */
  const PROTECTIVE_OPCODE_1: Byte := 0xFF
  const PROTECTIVE_OPCODE_2: Byte := 0x00

  type Ivt = s: seq<Byte> | |s| == IVT_SIZE witness seq(IVT_SIZE, i => 0)
  type VgaRom = s: seq<Byte> | |s| == VGA_ROM_SIZE witness seq(VGA_ROM_SIZE, i => 0)

  /** The low memory the installer reads and writes. */
  datatype LowMemory = LowMemory(ivt: Ivt, rom: VgaRom)

  datatype IvtEntry = IvtEntry(offset: U16, segment: U16)

  /** The bytes of an IVT_ENTRY in memory: the offset word, then the segment word. */
  function EntryBytes(e: IvtEntry): (r: seq<Byte>)
    ensures |r| == IVT_ENTRY_SIZE
  {
    Le(e.offset, 2) + Le(e.segment, 2)
  }

  /** (IVT_ENTRY *)IVT_ADDRESS + vector, read. */
  function ReadEntry(ivt: Ivt, vector: nat): (r: IvtEntry)
    requires vector < 256
  {
    var at := IVT_ADDRESS + vector * IVT_ENTRY_SIZE;
    IvtEntry(FromLe(ivt[at..at + 2]), FromLe(ivt[at + 2..at + 4]))
  }

  /** (IVT_ENTRY *)IVT_ADDRESS + vector, written. */
  function WriteEntry(ivt: Ivt, vector: nat, e: IvtEntry): (r: Ivt)
    requires vector < 256
    ensures forall i :: 0 <= i < IVT_SIZE && !(vector * IVT_ENTRY_SIZE <= i < vector * IVT_ENTRY_SIZE + IVT_ENTRY_SIZE) ==>
              r[i] == ivt[i]
  {
    Splice(ivt, IVT_ADDRESS + vector * IVT_ENTRY_SIZE, EntryBytes(e))
  }

  /** Reading an entry back gives what was written, and the other vectors are untouched. */
  lemma EntryRoundTrip(ivt: Ivt, vector: nat, e: IvtEntry, other: nat)
    requires vector < 256 && other < 256
    ensures ReadEntry(WriteEntry(ivt, vector, e), vector) == e
    ensures other != vector ==> ReadEntry(WriteEntry(ivt, vector, e), other) == ReadEntry(ivt, other)
  {
    var w := WriteEntry(ivt, vector, e);
    var at := vector * IVT_ENTRY_SIZE;
    assert w[at..at + 4] == EntryBytes(e);
    assert w[at..at + 2] == Le(e.offset, 2);
    assert w[at + 2..at + 4] == Le(e.segment, 2);
    FromLeLe(e.offset, 2);
    FromLeLe(e.segment, 2);
    if other != vector {
      var o := other * IVT_ENTRY_SIZE;
      assert other < vector || other > vector;
      assert w[o..o + 2] == ivt[o..o + 2];
      assert w[o + 2..o + 4] == ivt[o + 2..o + 4];
    }
  }

  /** (Segment << 4) + Offset: the physical address a real-mode vector designates. */
  function HandlerAddress(e: IvtEntry): (r: nat)
    ensures r < 0x10_FFF0
  {
    e.segment * 16 + e.offset
  }

  predicate InVgaRom(address: nat) {
    VGA_ROM_ADDRESS <= address < VGA_ROM_ADDRESS + VGA_ROM_SIZE
  }

  /** IsInt10hHandlerDefined: the Int10h vector designates a byte of the VGA ROM area, and
      that byte is not one of the protective opcodes. */
  predicate IsInt10hHandlerDefined(m: LowMemory) {
    var address := HandlerAddress(ReadEntry(m.ivt, INT10H_VECTOR));
    && InVgaRom(address)
    && m.rom[address - VGA_ROM_ADDRESS] != PROTECTIVE_OPCODE_1
    && m.rom[address - VGA_ROM_ADDRESS] != PROTECTIVE_OPCODE_2
  }

  /** The handler is accepted exactly when IVT bytes 0x40..0x43 (the Int10h vector, stored
      offset first, little-endian) designate a ROM byte other than 0x00 and 0xFF. */
  lemma HandlerDefinedByVectorBytes(m: LowMemory)
    ensures var ofs := m.ivt[0x40] as int + 256 * m.ivt[0x41] as int;
            var seg := m.ivt[0x42] as int + 256 * m.ivt[0x43] as int;
            var a := 16 * seg + ofs;
            IsInt10hHandlerDefined(m) <==> 0xC0000 <= a < 0xD0000 && m.rom[a - 0xC0000] !in {0x00, 0xFF}
  {
    var e := ReadEntry(m.ivt, INT10H_VECTOR);
    assert m.ivt[0x40..0x42] == [m.ivt[0x40], m.ivt[0x41]];
    assert m.ivt[0x42..0x44] == [m.ivt[0x42], m.ivt[0x43]];
    assert FromLe([m.ivt[0x41]]) == m.ivt[0x41];
    assert FromLe([m.ivt[0x43]]) == m.ivt[0x43];
  }

  /** The new vector for a handler at address: segment (UINT16)((UINT32)VGA_ROM_ADDRESS >> 4),
      offset (UINT16)(address - VGA_ROM_ADDRESS). */
  function NewEntry(address: U64): (r: IvtEntry)
    ensures InVgaRom(address) ==> HandlerAddress(r) == address
  {
    IvtEntry(
      offset := ((address - VGA_ROM_ADDRESS) % TWO_64) % TWO_16,
      segment := ((VGA_ROM_ADDRESS % TWO_32) / 16) % TWO_16)
  }

  /** The vector for a handler right after the 512 bytes of VESA tables at the start of
      the ROM area: 0xC000:0x0200. */
  lemma VgaHandlerEntry()
    ensures NewEntry(VGA_ROM_ADDRESS + Vesa.VBE_INFO_SIZE + Vesa.VBE_MODE_INFO_SIZE) == IvtEntry(0x0200, 0xC000)
  {
    var e := NewEntry(0xC0200);
    assert ((0xC0200 - VGA_ROM_ADDRESS) % TWO_64) % TWO_16 == 0x0200;
    assert ((VGA_ROM_ADDRESS % TWO_32) / 16) % TWO_16 == 0xC000;
  }

  /** The firmware's answers during the installation: AllocatePages for the IVT page, the
      platform as EnsureMemoryLock meets it for the UNLOCK and the LOCK call, and the display
      (None when no display adapter is available). */
  datatype Firmware = Firmware(
    ivtAllocationStatus: Status,
    unlock: MemoryLock.LockPlatform,
    lock: MemoryLock.LockPlatform,
    display: Option<Vesa.DisplayInfo>)

  /** The VGA ROM image written before the VESA information: the handler, zeros after it. */
  function RomImage(handler: seq<Byte>): (r: VgaRom)
    requires |handler| <= VGA_ROM_SIZE
    ensures r[..|handler|] == handler
    ensures forall i :: |handler| <= i < VGA_ROM_SIZE ==> r[i] == 0
  {
    handler + seq(VGA_ROM_SIZE - |handler|, i => 0)
  }

  /** The outcome: the status returned, low memory afterwards, the VESA tables when they
      were written (the first 512 bytes of the ROM area, kept as records rather than in
      rom), and the status of the LOCK call when it was made. */
  datatype InstallOutcome = InstallOutcome(
    status: Status,
    memory: LowMemory,
    vesa: Option<Vesa.VesaTables>,
    lockStatus: Option<Status>)

  /** The sanity check at the end: SUCCESS when the vector now designates a valid handler. */
  function SanityCheck(m: LowMemory): (r: Status)
    ensures r == SUCCESS <==> IsInt10hHandlerDefined(m)
    ensures r != SUCCESS ==> r == ABORTED
  {
    if IsInt10hHandlerDefined(m) then SUCCESS else ABORTED
  }

  /** The IVT step: the vector is written when the IVT page could be claimed, and otherwise
      accepted only if it already holds the new entry; the sanity check decides success. */
  function SetVector(written: LowMemory, entry: IvtEntry, allocation: Status): (r: (Status, LowMemory))
    ensures r.1.rom == written.rom
    ensures r.0 == SUCCESS ==> IsInt10hHandlerDefined(r.1) && ReadEntry(r.1.ivt, INT10H_VECTOR) == entry
    ensures forall i :: 0 <= i < IVT_SIZE && !(0x40 <= i < 0x44) ==> r.1.ivt[i] == written.ivt[i]
    ensures IsError(allocation) ==> r.1.ivt == written.ivt
    ensures r.0 == SUCCESS || IsError(r.0)
    ensures IsError(allocation) && ReadEntry(written.ivt, INT10H_VECTOR) != entry ==> r.0 == allocation
    ensures !(IsError(allocation) && ReadEntry(written.ivt, INT10H_VECTOR) != entry) ==> r.0 == SanityCheck(r.1)
  {
    if !IsError(allocation) then
      EntryRoundTrip(written.ivt, INT10H_VECTOR, entry, 0);
      var installed := written.(ivt := WriteEntry(written.ivt, INT10H_VECTOR, entry));
      (SanityCheck(installed), installed)
    else if ReadEntry(written.ivt, INT10H_VECTOR) == entry then
      (SanityCheck(written), written)
    else
      (allocation, written)
  }

  /** The steps after the ROM area was unlocked and the handler copied into it: the VESA
      tables, the LOCK call, then the IVT vector for the handler right after the tables. */
  function InstallVector(written: LowMemory, fw: Firmware): (r: InstallOutcome)
    ensures r.memory.rom == written.rom
    ensures r.status == SUCCESS ==> IsInt10hHandlerDefined(r.memory)
    ensures r.status == SUCCESS ==>
              && ReadEntry(r.memory.ivt, INT10H_VECTOR) == IvtEntry(0x0200, 0xC000)
              && r.vesa.Some? && r.vesa.value.endAddress == VGA_ROM_ADDRESS + Vesa.VBE_INFO_SIZE + Vesa.VBE_MODE_INFO_SIZE
    ensures forall i :: 0 <= i < IVT_SIZE && !(0x40 <= i < 0x44) ==> r.memory.ivt[i] == written.ivt[i]
    ensures IsError(fw.ivtAllocationStatus) ==> r.memory.ivt == written.ivt
    ensures fw.display.None? ==> r.status == NOT_FOUND
    ensures r.status == SUCCESS || IsError(r.status)
    ensures r.lockStatus.Some? <==> r.vesa.Some?
    ensures var shim := Vesa.ShimVesaInformation(VGA_ROM_ADDRESS, true, fw.display);
            var claimed := !IsError(fw.ivtAllocationStatus) || ReadEntry(written.ivt, INT10H_VECTOR) == IvtEntry(0x0200, 0xC000);
            && (IsError(shim.status) ==> r.status == shim.status)
            && (!IsError(shim.status) && !claimed ==> r.status == fw.ivtAllocationStatus)
            && (!IsError(shim.status) && claimed ==> r.status == SanityCheck(r.memory))
  {
    var shim := Vesa.ShimVesaInformation(VGA_ROM_ADDRESS, true, fw.display);
    if IsError(shim.status) then InstallOutcome(shim.status, written, None, None)
    else
      var tables := shim.tables.value;
      assert tables.endAddress == VGA_ROM_ADDRESS + Vesa.VBE_INFO_SIZE + Vesa.VBE_MODE_INFO_SIZE;
      VgaHandlerEntry();
      var lock := MemoryLock.EnsureMemoryLock(VGA_ROM_ADDRESS, VGA_ROM_SIZE, MemoryLock.Lock, fw.lock);
      var (status, memory) := SetVector(written, NewEntry(tables.endAddress), fw.ivtAllocationStatus);
      InstallOutcome(status, memory, Some(tables), Some(lock))
  }

  /** InstallInt10hHandler, with handler the bytes of INT10H_HANDLER. */
  function InstallInt10hHandler(m: LowMemory, handler: seq<Byte>, fw: Firmware): (r: InstallOutcome)
    // an existing valid handler is kept and nothing is touched
    ensures IsInt10hHandlerDefined(m) ==> r == InstallOutcome(SUCCESS, m, None, None)
    // success always leaves a valid handler in place
    ensures r.status == SUCCESS ==> IsInt10hHandlerDefined(r.memory)
    // an installed handler sits right after the VESA tables, at 0xC000:0x0200
    ensures r.status == SUCCESS && !IsInt10hHandlerDefined(m) ==>
              && ReadEntry(r.memory.ivt, INT10H_VECTOR) == IvtEntry(0x0200, 0xC000)
              && HandlerAddress(ReadEntry(r.memory.ivt, INT10H_VECTOR)) == VGA_ROM_ADDRESS + Vesa.VBE_INFO_SIZE + Vesa.VBE_MODE_INFO_SIZE
              && r.vesa.Some? && r.vesa.value.endAddress == VGA_ROM_ADDRESS + Vesa.VBE_INFO_SIZE + Vesa.VBE_MODE_INFO_SIZE
    // only the Int10h vector may change, and only once the IVT page was claimed
    ensures forall i :: 0 <= i < IVT_SIZE && !(0x40 <= i < 0x44) ==> r.memory.ivt[i] == m.ivt[i]
    ensures IsError(fw.ivtAllocationStatus) ==> r.memory.ivt == m.ivt
    // the error paths, in order
    ensures !IsInt10hHandlerDefined(m) && |handler| > VGA_ROM_SIZE ==> r.status == BUFFER_TOO_SMALL && r.memory == m
    ensures var unlock := MemoryLock.EnsureMemoryLock(VGA_ROM_ADDRESS, VGA_ROM_SIZE, MemoryLock.Unlock, fw.unlock);
            !IsInt10hHandlerDefined(m) && |handler| <= VGA_ROM_SIZE ==>
              && (r.status == unlock <== IsError(unlock))
              && (r.memory.rom != m.rom ==> !IsError(unlock))
              && (!IsError(unlock) ==> r.memory.rom == RomImage(handler))
              && (!IsError(unlock) && fw.display.None? ==> r.status == NOT_FOUND)
    ensures var unlock := MemoryLock.EnsureMemoryLock(VGA_ROM_ADDRESS, VGA_ROM_SIZE, MemoryLock.Unlock, fw.unlock);
            var shim := Vesa.ShimVesaInformation(VGA_ROM_ADDRESS, true, fw.display);
            var claimed := !IsError(fw.ivtAllocationStatus) || ReadEntry(m.ivt, INT10H_VECTOR) == IvtEntry(0x0200, 0xC000);
            !IsInt10hHandlerDefined(m) && |handler| <= VGA_ROM_SIZE && !IsError(unlock) ==>
              && (IsError(shim.status) ==> r.status == shim.status)
              && (!IsError(shim.status) && !claimed ==> r.status == fw.ivtAllocationStatus)
              && (!IsError(shim.status) && claimed ==> r.status == SanityCheck(r.memory))
    ensures r.status == SUCCESS || IsError(r.status)
    ensures r.lockStatus.Some? <==> r.vesa.Some?
  {
    if IsInt10hHandlerDefined(m) then InstallOutcome(SUCCESS, m, None, None)
    else if |handler| > VGA_ROM_SIZE then InstallOutcome(BUFFER_TOO_SMALL, m, None, None)
    else
      var unlock := MemoryLock.EnsureMemoryLock(VGA_ROM_ADDRESS, VGA_ROM_SIZE, MemoryLock.Unlock, fw.unlock);
      if IsError(unlock) then InstallOutcome(unlock, m, None, None)
      else InstallVector(m.(rom := RomImage(handler)), fw)
  }
}
