# EfiGuard core, modelled in Dafny

EfiGuard is a UEFI bootkit. It patches the Windows boot manager, the Windows loader and the kernel during boot, so that PatchGuard and driver signature enforcement are disabled. This project models the parts of it whose behaviour can be stated without executing x86 code:

- **The inline-hook installer of EfiGuardDxe.** `HookFunction` writes a 14-byte absolute-jump detour over a function's prologue. It also builds a trampoline holding the saved prologue followed by a jump back. The sizing constants that go with it are modelled too (`JUMP_LENGTH`, the hook-template backups, `FindBitmapResource_orig`, `KERNEL_PATCH_INFORMATION`).
- **The NT definitions the driver relies on.** These are the word and byte extraction macros, `MAKELANGID`, the `NT_*` severity tests, `RTL_CONSTANT_STRING`, the `OBJECT_ATTRIBUTES` and `UNICODE_STRING` layouts with `InitializeObjectAttributes`, and the attribute and access-mask constants.
- **The decision logic of the loader application.** This covers:
  - reading keys for a prompt (`PromptInput`);
  - case-insensitive substring search (`StriStr`);
  - choosing the largest usable text mode;
  - finding, loading, starting and configuring the driver (`StartEfiGuard`);
  - which boot options are attempted, in what order and when the search stops (`TryBootOptionsInOrder`, and UefiMain's two passes);
  - the video-ROM lock and unlock fallbacks (`EnsureMemoryLock`);
  - the VESA information shim (`ShimVesaInformation`);
  - installing the INT 10h handler into the real-mode interrupt vector table (`InstallInt10hHandler`).

Memory is a sequence of bytes, and multi-byte values are little-endian (`Common.Le`, `Common.FromLe`). C's fixed-width integers are integer subset types, and every truncating cast and wrap-around is written out as an explicit modulus. A firmware call is represented by the status it returns, and a hardware probe by its result. Both are inputs to the functions that use them.

Modules follow the source files:

| module | file | models |
|---|---|---|
| `Common` | common.dfy | bytes, little-endian encoding, splicing a byte range |
| `EfiStatus` | efi_status.dfy | `EFI_STATUS` codes and `EFI_ERROR` |
| `Hook` | hook.dfy | EfiGuardDxe/hook.c, hook.h |
| `EfiGuardDxe` | efiguard_dxe.dfy | EfiGuardDxe/EfiGuardDxe.h sizes |
| `NtDef` | ntdef.dfy | EfiGuardDxe/ntdef.h |
| `LoaderStrings` | loader_strings.dfy | `StriStr` and EDK2's `StrStr` |
| `LoaderConsole` | loader_console.dfy | `PromptInput`, `SetHighestAvailableTextMode` |
| `LoaderDriver` | loader_driver.dfy | `StartEfiGuard` |
| `LoaderBoot` | loader_boot.dfy | `TryBootOptionsInOrder`, UefiMain's boot-through |
| `MemoryLock` | memory_lock.dfy | `EnsureMemoryLock` |
| `Vesa` | vesa.dfy | `ShimVesaInformation` |
| `Int10h` | int10h.dfy | `IsInt10hHandlerDefined`, `InstallInt10hHandler` |

## Model

| member | source | states |
|---|---|---|
| Hook.Stub | EfiGuardDxe/hook.c:3-8 | The detour is 14 bytes: `FF 25 00 00 00 00` followed by the 64-bit target address |
| Hook.DecodeStub | EfiGuardDxe/hook.c:3-8 | Reading a detour back yields a target exactly when the bytes start with the jump opcode |
| Hook.StubRoundTrip | EfiGuardDxe/hook.c:3-8 | Decoding an encoded detour gives back its 64-bit target |
| Hook.StubDecodeRoundTrip | EfiGuardDxe/hook.c:3-8 | Any 14 bytes that decode to a target are the detour for that target |
| Hook.CopyWpMem | EfiGuardDxe/hook.c:32-41 | A write-protected copy replaces exactly the destination range and leaves every other byte alone |
| Hook.HookFunction | EfiGuardDxe/hook.c:12-42 | Succeeds iff no pointer is NULL and the prologue is at least 14 bytes. On failure it returns INVALID_PARAMETER and memory is unchanged. On success the trampoline and the detour are written and nothing else changes |
| Hook.TrampolineLayout | EfiGuardDxe/hook.c:30-34 | The trampoline is the saved prologue, then the jump opcode, then `Func + PrologueLength` in little-endian |
| Hook.DetourLayout | EfiGuardDxe/hook.c:40-41 | The first 14 bytes of `Func` become the jump to `HookFunc` |
| Hook.DetourSparesTrampoline | EfiGuardDxe/hook.c:32-41 | When the buffers do not overlap, writing the detour does not disturb the trampoline |
| Hook.HookRedirects | EfiGuardDxe/hook.h:6 | After hooking, the code at `Func` decodes as a jump to `HookFunc` |
| Hook.HookKeepsOriginal | EfiGuardDxe/hook.h:7 | The trampoline holds the original prologue bytes as they were before the hook |
| Hook.TrampolineResumes | EfiGuardDxe/hook.c:30-34 | The trampoline's jump lands on the first byte of `Func` after the copied prologue |
| Hook.ContinueAddressExact | EfiGuardDxe/hook.c:30 | The continue address is `Func + PrologueLength` as long as that does not wrap 64 bits |
| EfiGuardDxe.JumpLengthIsStub | EfiGuardDxe/EfiGuardDxe.h:218-219 | `JUMP_LENGTH` is 14, the length of the detour `HookFunction` writes |
| EfiGuardDxe.HookTemplateSizeMatchesEncoding | EfiGuardDxe/EfiGuardDxe.h:56 | The hook template's declared size is the length of `mov eax/rax, imm; push; ret` on both pointer widths, the address sits at offset `sizeof(VOID*)/4`, and on x64 it is 12 bytes, the size of each saved-prologue backup |
| EfiGuardDxe.FindBitmapResourceTrampolineFits | EfiGuardDxe/EfiGuardDxe.h:230-236 | The `FindBitmapResource_orig` buffer (29 bytes) is exactly large enough. `HookFunction` with a 15-byte prologue succeeds and writes nothing beyond it |
| EfiGuardDxe.Message | EfiGuardDxe/EfiGuardDxe.h:205-214 | The message read from `KERNEL_PATCH_INFORMATION` is a prefix of the buffer covering `BufferSize` bytes, is never longer than 8192 characters, and is followed by L'\0' when the buffer has room for it |
| EfiGuardDxe.MessageIsCString | EfiGuardDxe/EfiGuardDxe.h:208 | Reading `Buffer` as a C string gives the message `BufferSize` describes, when the message has no NUL of its own and leaves room for the terminator |
| Common.UntilNul | Application/Loader/Loader.c:880 | A CHAR16 array read as a C string is its NUL-free prefix, ended by the first L'\0' |
| NtDef.LoWord | EfiGuardDxe/ntdef.h:52 | `LOWORD` keeps the low 16 bits |
| NtDef.HiWord | EfiGuardDxe/ntdef.h:53 | `HIWORD` keeps bits 16 to 31 |
| NtDef.LoByte | EfiGuardDxe/ntdef.h:54 | `LOBYTE` keeps the low 8 bits |
| NtDef.HiByte | EfiGuardDxe/ntdef.h:55 | `HIBYTE` keeps bits 8 to 15 |
| NtDef.WordsRecombine | EfiGuardDxe/ntdef.h:52-53 | A 32-bit value is `HIWORD << 16 \| LOWORD` |
| NtDef.BytesRecombine | EfiGuardDxe/ntdef.h:54-55 | A 16-bit value is `HIBYTE << 8 \| LOBYTE` |
| NtDef.WordsAreInverseOfJoin | EfiGuardDxe/ntdef.h:52-53 | `LOWORD` and `HIWORD` recover the two halves that were joined |
| NtDef.MakeLangId | EfiGuardDxe/ntdef.h:43 | `MAKELANGID` of two `UINT16` values fits in 26 bits, because the shift happens after promotion to a 32-bit int |
| NtDef.MakeLangIdFields | EfiGuardDxe/ntdef.h:43 | `MAKELANGID` keeps the primary language in bits 0 to 9 and puts the 16-bit sublanguage from bit 10 upward, OR-ing in any high primary bits |
| NtDef.NeutralLangId | EfiGuardDxe/ntdef.h:43-45 | The neutral language id is 0 |
| NtDef.LangIdRecoverable | EfiGuardDxe/ntdef.h:43 | For in-range fields, the primary language and the sublanguage can be read back from the id |
| NtDef.LangIdInjective | EfiGuardDxe/ntdef.h:43 | Distinct in-range field pairs give distinct ids |
| NtDef.NtSuccessIsSignBitClear | EfiGuardDxe/ntdef.h:144 | `NT_SUCCESS` holds exactly when bit 31 is clear |
| NtDef.NtSeverityClasses | EfiGuardDxe/ntdef.h:144-147 | The information, warning and error classes are pairwise disjoint. Information statuses pass `NT_SUCCESS`, and `NT_SUCCESS` fails exactly for warnings and errors |
| NtDef.RtlConstantString | EfiGuardDxe/ntdef.h:46-51 | `Length` excludes the terminator, `MaximumLength` includes it, and both are byte counts |
| NtDef.RtlConstantStringCoversText | EfiGuardDxe/ntdef.h:46-51 | `Length / 2` characters are the text, and `MaximumLength` leaves room for exactly one terminator |
| NtDef.AlignUpIsLeastMultiple | EfiGuardDxe/ntdef.h:122-129 | (x64 C ABI context) The field-alignment rounding is the least multiple of the alignment at or above the offset |
| NtDef.NaturalLayoutAligned | EfiGuardDxe/ntdef.h:122-129 | Natural struct layout aligns every field and places fields in order without overlap |
| NtDef.ObjectAttributesLayout | EfiGuardDxe/ntdef.h:122-129 | (x64 C ABI context) `OBJECT_ATTRIBUTES` has its fields at 0, 8, 0x10, 0x18, 0x20 and 0x28 and is 0x30 bytes |
| NtDef.InitializeObjectAttributes | EfiGuardDxe/ntdef.h:133-140 | Sets `Length` to 0x30, stores the name, root and descriptor, truncates the attributes to 32 bits and clears the QoS pointer |
| NtDef.UnicodeStringLayout | EfiGuardDxe/ntdef.h:191-195 | (x64 C ABI context) `UNICODE_STRING` is two 16-bit lengths, padding, and the buffer pointer at offset 8, 16 bytes in all |
| NtDef.ObjValidAttributesIsUnion | EfiGuardDxe/ntdef.h:110-120 | `OBJ_VALID_ATTRIBUTES` is the union of the ten `OBJ_*` flags, which are distinct single bits |
| NtDef.AccessMasksConsistent | EfiGuardDxe/ntdef.h:152-168 | `STANDARD_RIGHTS_REQUIRED` is the four standard rights, and `STANDARD_RIGHTS_ALL` adds `SYNCHRONIZE`. The generic rights are the top four bits and do not overlap the specific or standard rights |
| NtDef.FileAttributeMasksConsistent | EfiGuardDxe/ntdef.h:57-74 | The settable file attributes are a subset of the valid ones, and each valid flag is one of the defined attributes |
| LoaderStrings.FindFrom | Application/Loader/Loader.c:559-595 | The search from an offset returns the leftmost match at or after it, or None when there is none |
| LoaderStrings.FindIsLeftmost | Application/Loader/Loader.c:559-595 | The search result is the leftmost match, and None iff there is no match. An empty needle matches at 0 |
| LoaderStrings.StriStr | Application/Loader/Loader.c:559-595 | The C loop, including its early NULL when `String1` runs out mid-comparison, returns exactly the leftmost case-folded occurrence |
| LoaderStrings.StrStr | Application/Loader/Loader.c:879-880 | The case-sensitive search returns the leftmost verbatim occurrence, or None when there is none |
| LoaderConsole.Decision | Application/Loader/Loader.c:529-549 | Enter picks the default. An accepted key is the selection. The result is always the default or a non-NUL accepted key |
| LoaderConsole.PromptInput | Application/Loader/Loader.c:508-557 | The answer is the default or a non-NUL accepted key, and the keys left unread are a proper suffix of the input. The result is None while no decisive key has been typed |
| LoaderConsole.PromptInputWaits | Application/Loader/Loader.c:519-553 | The prompt keeps waiting exactly as long as no decisive key has been typed |
| LoaderConsole.PromptInputDecidedAt | Application/Loader/Loader.c:519-553 | The first decisive key decides the answer, and the remaining input is what follows it |
| LoaderConsole.PromptInputIgnoresLaterKeys | Application/Loader/Loader.c:519-553 | Keys typed after the decisive key do not change the answer |
| LoaderConsole.BestModeUnique | Application/Loader/Loader.c:680-699 | At most one mode is the best usable one when ties go to the highest mode number, so the choice is determined |
| LoaderConsole.SetHighestAvailableTextMode | Application/Loader/Loader.c:666-706 | Returns NOT_READY without a console. Otherwise it picks the usable mode of greatest `(16*Rows)*(10*Cols)`, the later one on ties, or mode 0 when none is usable. SetMode is called exactly when that differs from the current mode, and then decides the status. Otherwise the status is that of the last QueryMode |
| LoaderDriver.ConfigurationFor | Application/Loader/Loader.c:794-808 | The loader waits for a key after each patch stage exactly when the second answer is `2` |
| LoaderDriver.MenuKey | Application/Loader/Loader.c:782-808 | Each bypass method is selected by one of the accepted menu keys `1`, `2`, `3` |
| LoaderDriver.ConfigurationMenuComplete | Application/Loader/Loader.c:782-808 | Every method and wait flag can be reached from the menu keys, and each method from exactly one accepted key. `2` selects the SetVariable hook, `3` no bypass and `1` the boot-time bypass. Enter at both prompts gives the boot-time bypass without waiting |
| LoaderDriver.FindDriver | Application/Loader/Loader.c:727-738 | The driver is loaded from the first of the three paths where it is found. The status of the last lookup is kept when it is found nowhere |
| LoaderDriver.FindDriverFrom | Application/Loader/Loader.c:728-733 | The search from a path index returns the first path at or after it that is found |
| LoaderDriver.StartEfiGuard | Application/Loader/Loader.c:708-824 | If the driver is not already present it is loaded and started first. The protocol is then located and the driver configured. The status is the failing call's own: the last `LocateFile` when no path holds the driver, else `LoadImage`, `StartImage` or the second `LocateProtocol`. Without interactive configuration it is that `LocateProtocol`'s status, warnings included. In interactive mode, once that `LocateProtocol` succeeds, Configure is called with the configuration the two prompts give, and its status is returned. The result is None while a prompt is still waiting |
| LoaderDriver.StartEfiGuardSucceedsOnlyIfAllStepsDo | Application/Loader/Loader.c:721-773 | The result is not an error exactly when every step that ran succeeded. A freshly loaded driver came from the first path it was found at |
| LoaderDriver.InteractiveConfigurationFollowsPrompts | Application/Loader/Loader.c:775-808 | The bypass method is the first prompt's answer, and the wait flag is the next prompt's answer |
| LoaderDriver.TwoPrompts | Application/Loader/Loader.c:783-792 | The second prompt starts at the key after the first decisive key |
| LoaderDriver.InteractiveConfigurationIgnoresLaterKeys | Application/Loader/Loader.c:783-792 | Keys typed after both decisions do not change the configuration |
| LoaderDriver.EnterTwiceGivesDefaults | Application/Loader/Loader.c:782-808 | With the driver already present, pressing Enter twice configures the boot-time bypass without waiting, and the status is that of Configure |
| LoaderBoot.PathMentions | Application/Loader/Loader.c:901-904 | `StriStr` on the device path text, read up to its terminator, finds a name exactly when the leftmost case-folded search of that text does |
| LoaderBoot.EligibleIndices | Application/Loader/Loader.c:850-918 | Lists, in increasing order, exactly the option indices below n that pass the filters |
| LoaderBoot.TryBootOptionsInOrder | Application/Loader/Loader.c:832-1059 | Options are attempted in order, skipping filtered ones. The first one that ends the loop decides the result: the LegacyBoot status, or success when StartImage returns SUCCESS. FALSE means none ended it |
| LoaderBoot.WindowsPassIsStricter | Application/Loader/Loader.c:868-918 | The Windows-only pass attempts a subset of the options, and never a legacy entry or one that does not look like Windows |
| LoaderBoot.NeverBootsItself | Application/Loader/Loader.c:850-851 | The option that is running (BootCurrent) is never attempted |
| LoaderBoot.CurrentBootOptionIndex | Application/Loader/Loader.c:1227-1243 | BootCurrent's value, or 0xFFFF when the variable cannot be read |
| LoaderBoot.BootThrough | Application/Loader/Loader.c:1248-1265 | A Windows-only pass first. A pass over every eligible option follows only if the first fails. The overall result is the success of either. Each pass is exactly a `TryBootOptionsInOrder` pass (`PassOutcome`). Its success is the outcome of the option that ended it, and a pass that no option ended fails, so with no boot options nothing boots. The second pass calls LegacyBoot, LoadImage and StartImage again, so an option that failed in the first pass can succeed in the second |
| MemoryLock.ProbeStatus | Application/Loader/Loader.c:343 | The probe reports SUCCESS exactly when writability matches the operation, and DEVICE_ERROR otherwise |
| MemoryLock.EnsureMemoryLock | Application/Loader/Loader.c:296-403 | Rejects a zero start or length. Otherwise succeeds iff the area already was in the requested state or a mechanism got it there. It never returns a warning, and on failure reports DEVICE_ERROR or the LegacyRegion2 lookup error |
| Vesa.BitOrDisjoint | Application/Loader/Loader.c:95 | OR-ing a value into bits that are clear is addition |
| Vesa.FarPointerResolves | Application/Loader/Loader.c:95 | For a 64 KiB-aligned start below 1 MiB, `(UINT32)Start << 12 \| (UINT16)Ptr` is a real-mode segment:offset that designates `Ptr` |
| Vesa.CString | Application/Loader/Loader.c:37-39 | A C string literal is its characters followed by one NUL |
| Vesa.VideoMem64K | Application/Loader/Loader.c:104 | The video memory size in 64 KiB blocks, rounded up, for frame buffers of at most 0xFFFF blocks |
| Vesa.MaskPositions | Application/Loader/Loader.c:175-188 | Defined exactly for RGB and BGR. Each colour's field position is 8 times the channel's byte index in the pixel |
| Vesa.MaskPositionsPartitionPixel | Application/Loader/Loader.c:166-188 | The four 8-bit channels tile the 32-bit pixel without overlap |
| Vesa.LfbIsCentredWindow | Application/Loader/Loader.c:140-151 | The reported frame buffer is the pixel address of a centred 1024x768 window, truncated to 32 bits, and the window fits the display |
| Vesa.BytesPerScanLineLinear | Application/Loader/Loader.c:152 | `4 * PixelsPerScanLine` truncated to 16 bits, exact when it fits |
| Vesa.AddressAfter | Application/Loader/Loader.c:198 | The address after a block is start plus size when that does not wrap |
| Vesa.OemStringsLayout | Application/Loader/Loader.c:93-114 | The OEM string (the vendor name), the mode list, the vendor, product and revision strings are packed from offset 34, 54 bytes in all, and fit the 256-byte block |
| Vesa.VbeInfoAt | Application/Loader/Loader.c:87-114 | The strings the VBE info block points at fit in the 256-byte block after its 34-byte header |
| Vesa.ShimVesaInformation | Application/Loader/Loader.c:61-201 | INVALID_PARAMETER for a zero start or no EndAddress. NOT_FOUND without a display. UNSUPPORTED for formats other than RGB/BGR with 8 bits per colour, otherwise SUCCESS with both tables. EndAddress is start + 512 when that does not wrap. The frame buffer address, scan line length, mask positions and 64 KiB block count are derived from the display |
| Vesa.PointerIntoStrings | Application/Loader/Loader.c:95-114 | Each far pointer into the string area resolves to the bytes of the string it names |
| Vesa.ShimPointersResolve | Application/Loader/Loader.c:93-114 | At a 64 KiB-aligned start below 1 MiB all five far pointers resolve to their strings and to the mode list `0xF1, 0xFFFF` |
| Int10h.EntryBytes | Application/Loader/Loader.c:25-30 | An IVT entry is 4 bytes: the offset, then the segment, each little-endian |
| Int10h.WriteEntry | Application/Loader/Loader.c:1122-1126 | Writing vector v changes only bytes 4v to 4v+3 of the IVT |
| Int10h.EntryRoundTrip | Application/Loader/Loader.c:1122-1126 | Reading back a written entry gives it back, and other vectors are unaffected |
| Int10h.HandlerAddress | Application/Loader/Loader.c:226-228 | The linear address of a segment:offset is `segment*16 + offset`, below 0x10FFF0 |
| Int10h.HandlerDefinedByVectorBytes | Application/Loader/Loader.c:214-249 | A handler is defined iff IVT bytes 0x40..0x43, read as a little-endian offset and segment, designate a VGA ROM byte other than 0x00 and 0xFF |
| Int10h.NewEntry | Application/Loader/Loader.c:1110-1111 | The entry built for an address inside the VGA ROM resolves back to that address |
| Int10h.VgaHandlerEntry | Application/Loader/Loader.c:1104-1111 | The handler after the 512 bytes of VESA tables gets the entry C000:0200 |
| Int10h.RomImage | Application/Loader/Loader.c:1102-1103 | The ROM holds the handler followed by zeros |
| Int10h.SanityCheck | Application/Loader/Loader.c:1146-1155 | SUCCESS iff a handler is defined, ABORTED otherwise |
| Int10h.InstallInt10hHandler | Application/Loader/Loader.c:1061-1156 | Does nothing if a handler is already defined. A handler larger than the ROM gives BUFFER_TOO_SMALL with nothing changed. A failed unlock gives its own status, and a missing display gives NOT_FOUND. The ROM changes only after a successful unlock, and then holds the handler image. Only IVT vector 0x10 may change, and only once the IVT page is allocated. Success always leaves a handler defined, and a newly installed one is C000:0200, right after the 512 bytes of VESA tables. After a successful unlock the status is exact. It is the VESA shim's error, if the shim fails. It is the `AllocatePages` error, if the IVT page was not claimed and vector 0x10 differs from C000:0200. Otherwise it is the final sanity check's verdict on the resulting memory, ABORTED or SUCCESS |

## Left out

- Firmware services (LocateProtocol, LoadImage, StartImage, LegacyBoot, GetVariable, SetMode, ReadKeyStroke, FreePages, AllocatePages) are inputs to the model: the status each call returns, in call order. A call made again is a new input: the second boot pass has its own LegacyBoot, LoadImage and StartImage statuses. Their implementations belong to the firmware.
- `CopyWpMem`'s clearing of CR0.WP and masking of interrupts are not modelled. Only its effect on memory is, because the rest is processor state.
- The execution semantics of x86 code are out of scope. Executing the detour is modelled as decoding its target.
- The Patch* functions, the Zydis disassembler and `BOOT_BITMAPS` are not part of this model. They are pattern scans over Windows binaries.
- Kernel addresses and function pointers stored in the driver's globals are plain numbers. What they point to is foreign code.
- Preprocessor configuration and the unions in ntdef.h are out of scope. The model fixes the x64 build (`sizeof(VOID*) == 8`).
- `CanWriteAtAddress`, the LegacyRegion and LegacyRegion2 calls and the MTRR programming enter `EnsureMemoryLock` only as probe results. They touch hardware.
- The contents of the `INT10H_HANDLER` blob are an input. It is x86 machine code built elsewhere.
- The first 512 bytes of the VGA ROM, which hold the VBE info and mode info blocks, are kept as the records `ShimVesaInformation` fills in, not as bytes. `Int10h.InstallInt10hHandler` states the ROM image after them. The packed byte layout of `VBE_INFO` and `VBE_MODE_INFO` is given by field offsets only.
- `Vesa.ShimVesaInformation`: when the pixel format is unsupported the source has already written part of the tables before it returns UNSUPPORTED. The model returns no tables in that case.
- `LoaderConsole.PromptInput`: the source blocks forever waiting for a decisive key. The model answers None while none has been typed.
- Display.h is not part of this model, and neither is `EnsureDisplayAvailable`, which fills in the display information. The field widths of the display record follow how the shim uses them, and a failed `EnsureDisplayAvailable` is modelled as no display.
- In `TryBootOptionsInOrder`, the writes to `BootOptions[].Status`, the SetVariable of BootCurrent, the watchdog timer and the screen output are not modelled. Only the returned value and the attempted options are.
- UefiMain's key handling around the boot (ESC, `WaitForKey`, the timeout prompt) and its console output are not modelled.
- The status returned by `FreePages` in `InstallInt10hHandler` is ignored by the source. The model ignores it too.
- `Vesa.FarPointerResolves`: only proved for a start that is 64 KiB-aligned and below 1 MiB. `(UINT32)Start << 12 | (UINT16)Ptr` designates `Ptr` only there. The only caller passes 0xC0000.
- `Vesa.ShimPointersResolve`: only proved under the same alignment restriction as `Vesa.FarPointerResolves`.
- `Vesa.LfbIsCentredWindow`: only stated for displays of at least 1024x768. For smaller displays the source's unsigned subtraction wraps and the offset is not a window position.
- `Vesa.VideoMem64K`: the rounding-up property is only stated for frame buffers of at most 0xFFFF blocks of 64 KiB. Larger sizes are truncated to 16 bits.
- `EfiGuardDxe.Message`: the characters are taken as given. Their encoding is not modelled. When `BufferSize` equals `sizeof(Buffer)`, which the header allows, no terminator fits after the message, so the model then requires none and `Buffer` is not a C string.
- `LoaderDriver.StartEfiGuard`: a failed LoadImage and a failed StartImage are told apart only by the status they return. The message printed for each is not modelled.
