/** Booting through to Windows: which boot options TryBootOptionsInOrder attempts, in
    what order, and when it stops; and the two passes UefiMain makes over them. Boot
    options follow section 3.1.3 of the UEFI Specification (load options) and the
    BootCurrent variable section 3.3. What the firmware does with an attempted option
    (LegacyBoot, LoadImage, StartImage) is given per option as the status it returns. */
module LoaderBoot {
  import opened Common
  import opened EfiStatus
  import LoaderStrings

  /** LOAD_OPTION_ACTIVE and the LOAD_OPTION_CATEGORY field of the Attributes. */
  const LOAD_OPTION_ACTIVE: bv32 := 0x0000_0001
  const LOAD_OPTION_CATEGORY: bv32 := 0x0000_1F00
  const LOAD_OPTION_CATEGORY_BOOT: bv32 := 0x0000_0000

  /** BBS_DEVICE_PATH and BBS_BBS_DP: the device path node of a legacy (BIOS) boot entry. */
  const BBS_DEVICE_PATH: Byte := 0x05
  const BBS_BBS_DP: Byte := 0x01

  /** EFI_BOOT_MANAGER_LOAD_OPTION as the loop reads it, together with the firmware's
      answers for it: the type and subtype of the first FilePath node, the text of the
      full device path (None when ConvertDevicePathToText fails) and the status of
      LegacyBoot, LoadImage and StartImage should the option be attempted. */
  datatype BootOption = BootOption(
    optionNumber: U64,
    attributes: bv32,
    description: Option<seq<Char16>>,
    pathType: Byte,
    pathSubType: Byte,
    pathText: Option<seq<Char16>>,
    legacyBootStatus: Status,
    loadImageStatus: Status,
    startImageStatus: Status)

  /** The option's FilePath starts with a BBS node: a legacy BIOS boot entry. */
  predicate IsLegacy(o: BootOption) {
    o.pathType == BBS_DEVICE_PATH && o.pathSubType == BBS_BBS_DP
  }

  const WINDOWS_BOOT_MANAGER: seq<Char16> := LoaderStrings.Wide("Windows Boot Manager")
  const BOOTMGFW_EFI: seq<Char16> := LoaderStrings.Wide("bootmgfw.efi")
  const BOOTX64_EFI: seq<Char16> := LoaderStrings.Wide("bootx64.efi")

  /** The Windows heuristic: the description contains "Windows Boot Manager" (case-sensitive),
      or the device path text contains "bootmgfw.efi" or "bootx64.efi" in any letter case.
      Both strings are C strings, so each search stops at the first L'\0'. */
  predicate MaybeWindows(o: BootOption) {
    || (o.description.Some? && LoaderStrings.StrStr(UntilNul(o.description.value), WINDOWS_BOOT_MANAGER).Some?)
    || (o.pathText.Some?
        && (|| LoaderStrings.Find(LoaderStrings.CharToUpper, UntilNul(o.pathText.value), BOOTMGFW_EFI).Some?
            || LoaderStrings.Find(LoaderStrings.CharToUpper, UntilNul(o.pathText.value), BOOTX64_EFI).Some?))
  }

  /** The case-insensitive test on the device path text is the loop StriStr runs over
      the text as a C string. */
  method PathMentions(pathText: seq<Char16>, name: seq<Char16>) returns (found: bool)
    requires LoaderStrings.NulFree(name)
    ensures found <==> LoaderStrings.Find(LoaderStrings.CharToUpper, UntilNul(pathText), name).Some?
  {
    LoaderStrings.CharToUpperFolds();
    var r := LoaderStrings.StriStr(LoaderStrings.CharToUpper, UntilNul(pathText), name);
    found := r.Some?;
  }

  /** The filters at the top of the loop: an option is attempted only if it is not the
      running loader, is active, is in the boot category, and, when only Windows may be
      booted, is not a legacy entry and looks like Windows. */
  predicate Eligible(o: BootOption, current: U16, onlyBootWindows: bool) {
    && o.optionNumber != current
    && o.attributes & LOAD_OPTION_ACTIVE != 0
    && o.attributes & LOAD_OPTION_CATEGORY == LOAD_OPTION_CATEGORY_BOOT
    && !(onlyBootWindows && IsLegacy(o))
    && !(onlyBootWindows && !MaybeWindows(o))
  }

  /** Attempting the option ends the loop: a legacy boot always returns, a UEFI image only
      when LoadImage succeeds and StartImage returns exactly EFI_SUCCESS. A failed load,
      a failed start and a start that ends in a warning all move on to the next option. */
  predicate EndsLoop(o: BootOption) {
    IsLegacy(o) || (!IsError(o.loadImageStatus) && o.startImageStatus == SUCCESS)
  }

  /** The value TryBootOptionsInOrder returns for the option that ends the loop. */
  predicate Booted(o: BootOption) {
    if IsLegacy(o) then !IsError(o.legacyBootStatus) else true
  }

  /** The indices below n whose flag is set, in increasing order. */
  function Marked(flags: seq<bool>, n: nat): (r: seq<nat>)
    requires n <= |flags|
    ensures forall k :: 0 <= k < |r| ==> r[k] < n && flags[r[k]]
    ensures forall i :: 0 <= i < n && flags[i] ==> i in r
    ensures forall k, l :: 0 <= k < l < |r| ==> r[k] < r[l]
  {
    if n == 0 then []
    else if flags[n - 1] then Marked(flags, n - 1) + [n - 1]
    else Marked(flags, n - 1)
  }

  /** For each option, whether it passes the filters. */
  function EligibleFlags(options: seq<BootOption>, current: U16, onlyBootWindows: bool): (r: seq<bool>)
    ensures |r| == |options|
    ensures forall i :: 0 <= i < |options| ==> (r[i] <==> Eligible(options[i], current, onlyBootWindows))
  {
    seq(|options|, i requires 0 <= i < |options| => Eligible(options[i], current, onlyBootWindows))
  }

  /** The indices below n of options that pass the filters, in order. */
  function EligibleIndices(options: seq<BootOption>, n: nat, current: U16, onlyBootWindows: bool): (r: seq<nat>)
    requires n <= |options|
    ensures forall k :: 0 <= k < |r| ==> r[k] < n && Eligible(options[r[k]], current, onlyBootWindows)
    ensures forall i :: 0 <= i < n && Eligible(options[i], current, onlyBootWindows) ==> i in r
    ensures forall k, l :: 0 <= k < l < |r| ==> r[k] < r[l]
  {
    Marked(EligibleFlags(options, current, onlyBootWindows), n)
  }

  /** What one call did: the value it returned, the option that ended the loop (None when
      every option was passed over or failed), and the options attempted, in order. */
  datatype BootAttempt = BootAttempt(success: bool, endedAt: Option<nat>, attempted: seq<nat>)

  /** What a pass of TryBootOptionsInOrder does: it ends at the first eligible option that ends
      the loop, having attempted exactly the eligible options up to it, and its value is that
      option's outcome; when no eligible option ends the loop it attempts them all and fails. */
  predicate PassOutcome(options: seq<BootOption>, current: U16, onlyBootWindows: bool, r: BootAttempt) {
    && (r.endedAt.Some? ==> var k := r.endedAt.value;
          && k < |options|
          && Eligible(options[k], current, onlyBootWindows) && EndsLoop(options[k])
          && (forall i :: 0 <= i < k && Eligible(options[i], current, onlyBootWindows) ==> !EndsLoop(options[i]))
          && r.attempted == EligibleIndices(options, k + 1, current, onlyBootWindows)
          && r.success == Booted(options[k]))
    && (r.endedAt.None? ==>
          && (forall i :: 0 <= i < |options| && Eligible(options[i], current, onlyBootWindows) ==> !EndsLoop(options[i]))
          && r.attempted == EligibleIndices(options, |options|, current, onlyBootWindows)
          && !r.success)
  }

  /** TryBootOptionsInOrder(BootOptions, BootOptionCount, CurrentBootOptionIndex, OnlyBootWindows):
      the options are attempted in BootOrder order, skipping those the filters reject; the first
      attempted option that ends the loop decides the result, and FALSE means none did. */
  method TryBootOptionsInOrder(options: seq<BootOption>, current: U16, onlyBootWindows: bool) returns (r: BootAttempt)
    ensures PassOutcome(options, current, onlyBootWindows, r)
  {
    var attempted: seq<nat> := [];
    var index := 0;
    while index < |options|
      invariant index <= |options|
      invariant attempted == EligibleIndices(options, index, current, onlyBootWindows)
      invariant forall i :: 0 <= i < index && Eligible(options[i], current, onlyBootWindows) ==> !EndsLoop(options[i])
    {
      var o := options[index];
      var eligible := Eligible(o, current, onlyBootWindows);
      assert EligibleIndices(options, index + 1, current, onlyBootWindows)
             == if eligible then attempted + [index] else attempted;
      if eligible {
        attempted := attempted + [index];
        if IsLegacy(o) {
          return BootAttempt(!IsError(o.legacyBootStatus), Some(index), attempted);
        }
        if !IsError(o.loadImageStatus) && !IsError(o.startImageStatus) && o.startImageStatus == SUCCESS {
          return BootAttempt(true, Some(index), attempted);
        }
      }
      index := index + 1;
    }
    return BootAttempt(false, None, attempted);
  }

  /** The Windows-only filter is stricter than the unrestricted one: every option the first
      pass may attempt, the second may attempt too, and the first never attempts a legacy
      entry or an option that does not look like Windows. */
  lemma WindowsPassIsStricter(o: BootOption, current: U16)
    ensures Eligible(o, current, true) ==> Eligible(o, current, false)
    ensures Eligible(o, current, true) ==> !IsLegacy(o) && MaybeWindows(o)
    ensures Eligible(o, current, false) && !IsLegacy(o) && MaybeWindows(o) ==> Eligible(o, current, true)
  {
  }

  /** The running loader is never attempted, in either pass. */
  lemma NeverBootsItself(options: seq<BootOption>, current: U16, onlyBootWindows: bool)
    ensures forall k :: 0 <= k < |EligibleIndices(options, |options|, current, onlyBootWindows)| ==>
              options[EligibleIndices(options, |options|, current, onlyBootWindows)[k]].optionNumber != current
  {
  }

  /** BootCurrent as UefiMain reads it: the variable's value, or 0xFFFF when GetVariable fails. */
  function CurrentBootOptionIndex(bootCurrent: Option<U16>): (r: U16)
    ensures bootCurrent.Some? ==> r == bootCurrent.value
    ensures bootCurrent.None? ==> r == 0xFFFF
  {
    if bootCurrent.Some? then bootCurrent.value else 0xFFFF
  }

  /** The same boot entries, read again: only the firmware's answers to LegacyBoot, LoadImage
      and StartImage may differ, since the second pass calls them afresh. */
  predicate SameEntries(options: seq<BootOption>, retry: seq<BootOption>) {
    && |retry| == |options|
    && forall i :: 0 <= i < |options| ==>
         retry[i] == options[i].(legacyBootStatus := retry[i].legacyBootStatus,
                                 loadImageStatus := retry[i].loadImageStatus,
                                 startImageStatus := retry[i].startImageStatus)
  }

  /** The filters read no firmware answer, so both readings of the entries select the same options. */
  lemma SameEntriesSameIndices(options: seq<BootOption>, retry: seq<BootOption>, current: U16, onlyBootWindows: bool)
    requires SameEntries(options, retry)
    ensures EligibleFlags(retry, current, onlyBootWindows) == EligibleFlags(options, current, onlyBootWindows)
    ensures forall n :: 0 <= n <= |options| ==>
              EligibleIndices(retry, n, current, onlyBootWindows) == EligibleIndices(options, n, current, onlyBootWindows)
  {
  }

  /** The outcome of UefiMain's boot-through: whether it booted, and the two passes. */
  datatype BootThroughResult = BootThroughResult(success: bool, windowsPass: BootAttempt, anyPass: Option<BootAttempt>)

  /** UefiMain's boot-through: a pass restricted to Windows entries first, and a pass over
      every eligible entry only when the first one returned FALSE. The second pass calls the
      firmware again, so its answers are those of retry: the same entries, fresh statuses. */
  method BootThrough(options: seq<BootOption>, retry: seq<BootOption>, bootCurrent: Option<U16>) returns (r: BootThroughResult)
    requires SameEntries(options, retry)
    ensures PassOutcome(options, CurrentBootOptionIndex(bootCurrent), true, r.windowsPass)
    ensures r.anyPass.Some? ==> PassOutcome(retry, CurrentBootOptionIndex(bootCurrent), false, r.anyPass.value)
    ensures r.anyPass.Some? <==> !r.windowsPass.success
    ensures r.success <==> r.windowsPass.success || (r.anyPass.Some? && r.anyPass.value.success)
    ensures var current := CurrentBootOptionIndex(bootCurrent);
            forall k :: 0 <= k < |r.windowsPass.attempted| ==>
              && r.windowsPass.attempted[k] < |options|
              && !IsLegacy(options[r.windowsPass.attempted[k]])
              && MaybeWindows(options[r.windowsPass.attempted[k]])
              && options[r.windowsPass.attempted[k]].optionNumber != current
    ensures r.anyPass.Some? ==> r.anyPass.value.attempted == EligibleIndices(options,
              if r.anyPass.value.endedAt.Some? then r.anyPass.value.endedAt.value + 1 else |options|,
              CurrentBootOptionIndex(bootCurrent), false)
  {
    var current := CurrentBootOptionIndex(bootCurrent);
    var first := TryBootOptionsInOrder(options, current, true);
    if first.success {
      return BootThroughResult(true, first, None);
    }
    var second := TryBootOptionsInOrder(retry, current, false);
    SameEntriesSameIndices(options, retry, current, false);
    return BootThroughResult(second.success, first, Some(second));
  }
}
