/** Statically reserved storage of the driver: jump and hook-template sizes, the
    trampoline buffers of KERNEL_HOOKS and the deferred kernel patch message
    buffer. The storage must be static because dynamic allocation does not
    survive winload's switch between its two memory modes. */
module EfiGuardDxe {
  import opened Common
  import opened EfiStatus
  import Hook

  /** JUMP_LENGTH: `6 + sizeof(VOID*)`, the detour plus its absolute target. */
  function JumpLength(pointerSize: nat): nat {
    6 + pointerSize
  }

  const JUMP_LENGTH: nat := JumpLength(POINTER_SIZE)

  /** On x64 JUMP_LENGTH is 14: the size of the stub HookFunction writes into a
      hooked function and HookFunction's minimum prologue length. */
  lemma JumpLengthIsStub(target: U64)
    ensures JUMP_LENGTH == 14
    ensures JUMP_LENGTH == |Hook.Stub(target)| == Hook.STUB_LENGTH
  {
  }

  /** Length of gHookTemplate: `sizeof(VOID*)/4 + sizeof(VOID*) + 2`. */
  function HookTemplateSize(pointerSize: nat): nat {
    pointerSize / 4 + pointerSize + 2
  }

  const HOOK_TEMPLATE_SIZE: nat := HookTemplateSize(POINTER_SIZE)

  /** The faux call the template encodes: `mov eax/rax, addr; push eax/rax; ret`.
      On x64 the move is REX.W B8 imm64, on x86 B8 imm32; push is 50 and ret is C3. */
  function FauxCall(pointerSize: nat, addr: nat): (r: seq<Byte>)
    requires pointerSize == 4 || pointerSize == 8
  {
    (if pointerSize == 8 then [0x48, 0xB8] else [0xB8]) + Le(addr, pointerSize) + [0x50, 0xC3]
  }

  /** The template length formula is the size of the faux call on both pointer
      widths, and the address sits at offset sizeof(VOID*)/4 within it. */
  lemma HookTemplateSizeMatchesEncoding(pointerSize: nat, addr: nat)
    requires pointerSize == 4 || pointerSize == 8
    requires addr < Pow256(pointerSize)
    ensures |FauxCall(pointerSize, addr)| == HookTemplateSize(pointerSize)
    ensures FromLe(FauxCall(pointerSize, addr)[pointerSize / 4..pointerSize / 4 + pointerSize]) == addr
    ensures pointerSize == POINTER_SIZE ==> |FauxCall(pointerSize, addr)| == BOOTMGFW_BACKUP_SIZE == 12
  {
    var prefix: seq<Byte> := if pointerSize == 8 then [0x48, 0xB8] else [0xB8];
    assert |prefix| == pointerSize / 4;
    assert FauxCall(pointerSize, addr)[pointerSize / 4..pointerSize / 4 + pointerSize] == Le(addr, pointerSize);
    FromLeLe(addr, pointerSize);
  }

  /** The three backup buffers (bootmgfw, bootmgr, winload) hold exactly the bytes
      a hook template overwrites: `sizeof(gHookTemplate)`, 12 on x64. */
  const BOOTMGFW_BACKUP_SIZE: nat := HOOK_TEMPLATE_SIZE
  const BOOTMGR_BACKUP_SIZE: nat := HOOK_TEMPLATE_SIZE
  const OSL_FWP_KERNEL_SETUP_PHASE1_BACKUP_SIZE: nat := HOOK_TEMPLATE_SIZE

  /** Prologue length of the kernel's FindBitmapResource, as the KERNEL_HOOKS sizing uses it. */
  const FIND_BITMAP_RESOURCE_PROLOGUE: nat := 15

  /** KERNEL_HOOKS.FindBitmapResource_orig: `JUMP_LENGTH + 15` bytes. */
  const FIND_BITMAP_RESOURCE_ORIG_SIZE: nat := JUMP_LENGTH + FIND_BITMAP_RESOURCE_PROLOGUE

  /** The statically reserved trampoline meets HookFunction's capacity rule for a
      15-byte prologue: hooking into it is allowed, and every byte HookFunction
      writes on the OrigFunc side falls inside the 29 reserved bytes, none after. */
  lemma FindBitmapResourceTrampolineFits(mem: Hook.Memory, func: U64, hookFunc: U64, origFunc: U64)
    requires func != 0 && hookFunc != 0 && origFunc != 0
    requires func + FIND_BITMAP_RESOURCE_PROLOGUE <= |mem|
    requires origFunc + FIND_BITMAP_RESOURCE_ORIG_SIZE <= |mem|
    requires func + FIND_BITMAP_RESOURCE_PROLOGUE <= origFunc
             || origFunc + FIND_BITMAP_RESOURCE_ORIG_SIZE <= func
    ensures FIND_BITMAP_RESOURCE_ORIG_SIZE == 29
    ensures Hook.CallerBuffersValid(mem, func, FIND_BITMAP_RESOURCE_PROLOGUE, origFunc)
    ensures var r := Hook.HookFunction(mem, func, hookFunc, FIND_BITMAP_RESOURCE_PROLOGUE, origFunc);
            && r.0 == SUCCESS
            && forall i :: (origFunc + FIND_BITMAP_RESOURCE_ORIG_SIZE <= i < |mem|
                            && !(func <= i < func + Hook.STUB_LENGTH)) ==> r.1[i] == mem[i]
  {
  }

  /** Characters in KERNEL_PATCH_INFORMATION.Buffer (CHAR16[8192]). */
  const KERNEL_PATCH_BUFFER_CHARS: nat := 8192

  /** sizeof(Buffer) in bytes. */
  const KERNEL_PATCH_BUFFER_BYTES: nat := 2 * KERNEL_PATCH_BUFFER_CHARS

  /** KERNEL_PATCH_INFORMATION: the kernel patch outcome held until boot services
      can print it. BufferSize counts bytes, excluding the terminator. */
  datatype KernelPatchInformation = KernelPatchInformation(
    status: Status,
    bufferSize: U64,
    buffer: seq<Char16>,
    winloadBuildNumber: U32,
    kernelBuildNumber: U32,
    kernelBase: U64)

  /** The documented layout: the buffer has its declared size, BufferSize never exceeds
      sizeof(Buffer), and the character after the BufferSize bytes is the terminator
      whenever the buffer has room for one. */
  predicate WellFormed(info: KernelPatchInformation) {
    && |info.buffer| == KERNEL_PATCH_BUFFER_CHARS
    && info.bufferSize <= KERNEL_PATCH_BUFFER_BYTES
    && (info.bufferSize / 2 < KERNEL_PATCH_BUFFER_CHARS ==> info.buffer[info.bufferSize / 2] == 0)
  }

  /** The message held in a well-formed record: the characters BufferSize covers,
      followed by L'\0' unless they fill the whole buffer. */
  function Message(info: KernelPatchInformation): (r: seq<Char16>)
    requires WellFormed(info)
    ensures 2 * |r| <= info.bufferSize <= 2 * |r| + 1
    ensures r <= info.buffer
    ensures |r| <= 8192
    ensures |r| < |info.buffer| ==> info.buffer[|r|] == 0
  {
    info.buffer[..info.bufferSize / 2]
  }

  /** Printing Buffer as a C string shows the message BufferSize describes, as long as the
      message holds no L'\0' of its own and leaves room for the terminator. */
  lemma MessageIsCString(info: KernelPatchInformation)
    requires WellFormed(info)
    requires info.bufferSize / 2 < KERNEL_PATCH_BUFFER_CHARS
    requires forall i :: 0 <= i < |Message(info)| ==> Message(info)[i] != 0
    ensures UntilNul(info.buffer) == Message(info)
  {
    var k := info.bufferSize / 2;
    forall i | 0 <= i < k
      ensures info.buffer[i] != 0
    {
      assert Message(info)[i] == info.buffer[i];
    }
    UntilNulAt(info.buffer, k);
  }
}
