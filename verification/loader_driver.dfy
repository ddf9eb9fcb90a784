/** StartEfiGuard: locating, loading and starting the EfiGuard driver, then (when the
    user asked for it) configuring it from two menu prompts. Every firmware call is an
    input: the status it returns is given, in the order the loader makes the calls. */
module LoaderDriver {
  import opened Common
  import opened EfiStatus
  import LoaderConsole

  /** EFIGUARD_DSE_BYPASS_TYPE: how driver signature enforcement is bypassed. */
  datatype DseBypassMethod = DseDisableNone | DseDisableAtBoot | DseDisableSetVariableHook

  /** EFIGUARD_CONFIGURATION_DATA as the loader fills it in. */
  datatype Configuration = Configuration(dseBypassMethod: DseBypassMethod, waitForKeyPress: bool)

  const KEY_1: Char16 := 0x31
  const KEY_2: Char16 := 0x32
  const KEY_3: Char16 := 0x33

  /** The characters of the two menus and their common default. */
  const ACCEPTED_DSE_BYPASSES: seq<Char16> := [KEY_1, KEY_2, KEY_3]
  const NO_YES: seq<Char16> := [KEY_1, KEY_2]
  const DEFAULT_SELECTION: Char16 := KEY_1

  /** The switch on SelectedDseBypass and the WaitForKeyPress comparison: '2' selects the
      runtime SetVariable hook, '3' no bypass, '1' and every other character the boot-time
      bypass; the loader waits for keys after each stage exactly when the second answer is '2'. */
  function ConfigurationFor(selectedDseBypass: Char16, selectedWaitForKeyPress: Char16): (r: Configuration)
    ensures r.waitForKeyPress <==> selectedWaitForKeyPress == KEY_2
  {
    Configuration(
      if selectedDseBypass == KEY_2 then DseDisableSetVariableHook
      else if selectedDseBypass == KEY_3 then DseDisableNone
      else DseDisableAtBoot,
      selectedWaitForKeyPress == KEY_2)
  }

  /** The menu key that selects each bypass method. */
  function MenuKey(m: DseBypassMethod): (r: Char16)
    ensures r in ACCEPTED_DSE_BYPASSES
  {
    match m
    case DseDisableAtBoot => KEY_1
    case DseDisableSetVariableHook => KEY_2
    case DseDisableNone => KEY_3
  }

  /** Every configuration is reachable from the menus, each method from exactly one accepted
      key, and Enter at both prompts gives the boot-time bypass without waiting. */
  lemma ConfigurationMenuComplete(m: DseBypassMethod, wait: bool, c: Char16)
    ensures ConfigurationFor(MenuKey(m), if wait then KEY_2 else KEY_1) == Configuration(m, wait)
    ensures c in ACCEPTED_DSE_BYPASSES && ConfigurationFor(c, KEY_1).dseBypassMethod == m ==> c == MenuKey(m)
    ensures ConfigurationFor(DEFAULT_SELECTION, DEFAULT_SELECTION) == Configuration(DseDisableAtBoot, false)
  {
  }

  /** mDriverPaths: where the driver file is looked for, in this order. */
  const DRIVER_PATHS: seq<string> := [
    "\\EFI\\Boot\\EfiGuardDxe.efi",
    "\\EFI\\EfiGuardDxe.efi",
    "\\EfiGuardDxe.efi"
  ]

  /** The search loop over mDriverPaths given the status LocateFile returns for each path:
      the first path found and its status, or None and the status of the last attempt. */
  function FindDriver(locateFile: seq<Status>): (r: (Option<nat>, Status))
    requires |locateFile| == |DRIVER_PATHS|
    ensures r.0.Some? ==> r.0.value < |DRIVER_PATHS| && r.1 == locateFile[r.0.value] && !IsError(r.1)
    ensures r.0.Some? ==> forall i :: 0 <= i < r.0.value ==> IsError(locateFile[i])
    ensures r.0.None? <==> forall i :: 0 <= i < |DRIVER_PATHS| ==> IsError(locateFile[i])
    ensures r.0.None? ==> r.1 == locateFile[|DRIVER_PATHS| - 1]
  {
    FindDriverFrom(locateFile, 0)
  }

  function FindDriverFrom(locateFile: seq<Status>, i: nat): (r: (Option<nat>, Status))
    requires 0 < |locateFile| && i < |locateFile|
    ensures r.0.Some? ==> i <= r.0.value < |locateFile| && r.1 == locateFile[r.0.value] && !IsError(r.1)
    ensures r.0.Some? ==> forall j :: i <= j < r.0.value ==> IsError(locateFile[j])
    ensures r.0.None? <==> forall j :: i <= j < |locateFile| ==> IsError(locateFile[j])
    ensures r.0.None? ==> r.1 == locateFile[|locateFile| - 1]
    decreases |locateFile| - i
  {
    if !IsError(locateFile[i]) then (Some(i), locateFile[i])
    else if i + 1 == |locateFile| then (None, locateFile[i])
    else FindDriverFrom(locateFile, i + 1)
  }

  /** The interactive part of StartEfiGuard: the two prompts, each defaulting to '1', read
      from the keys typed, mapped to the configuration sent to the driver; None while
      a prompt is still waiting. */
  function InteractiveConfiguration(keys: seq<Char16>): (r: Option<Configuration>)
  {
    var dse := LoaderConsole.PromptInput(ACCEPTED_DSE_BYPASSES, DEFAULT_SELECTION, keys);
    if dse.None? then None
    else
      var wait := LoaderConsole.PromptInput(NO_YES, DEFAULT_SELECTION, dse.value.1);
      if wait.None? then None
      else Some(ConfigurationFor(dse.value.0, wait.value.0))
  }

  /** The firmware's answers to StartEfiGuard's calls: both LocateProtocol calls for the
      driver protocol, LocateFile for each path, LoadImage, StartImage and Configure. */
  datatype DriverFirmware = DriverFirmware(
    firstLocate: Status,
    locateFile: seq<Status>,
    loadImage: Status,
    startImage: Status,
    secondLocate: Status,
    configure: Status)

  /** What StartEfiGuard did: its status, the index of the path it loaded the driver from,
      and the configuration it passed to Configure. */
  datatype StartResult = StartResult(status: Status, loadedFrom: Option<nat>, configured: Option<Configuration>)

  /** The driver is running before the second LocateProtocol: it was already present, or
      it was found, loaded and started. */
  predicate DriverRunning(fw: DriverFirmware)
    requires |fw.locateFile| == |DRIVER_PATHS|
  {
    || fw.firstLocate != NOT_FOUND
    || (FindDriver(fw.locateFile).0.Some? && !IsError(fw.loadImage) && !IsError(fw.startImage))
  }

  /** StartEfiGuard(InteractiveConfiguration) given the firmware's answers and the keys the
      user types; None when a prompt is still waiting for a decisive key. The driver is
      loaded only when the first LocateProtocol says NOT_FOUND (any other status, an
      error included, is taken to mean it is already loaded); the first failing step
      decides the status; Configure is called only in interactive mode. */
  function StartEfiGuard(interactive: bool, fw: DriverFirmware, keys: seq<Char16>): (r: Option<StartResult>)
    requires |fw.locateFile| == |DRIVER_PATHS|
    ensures r.Some? && r.value.configured.Some? ==> interactive && r.value.status == fw.configure
    ensures r.Some? && r.value.loadedFrom.Some? ==> fw.firstLocate == NOT_FOUND
    ensures r.Some? && r.value.configured.Some? ==> !IsError(fw.secondLocate)
    ensures r.Some? && r.value.configured.Some? ==> r.value.configured == InteractiveConfiguration(keys)
    ensures interactive && r.Some? && !IsError(r.value.status) ==> r.value.configured.Some?
    ensures !interactive ==> r.Some? && r.value.configured.None?
    ensures fw.firstLocate == NOT_FOUND && FindDriver(fw.locateFile).0.None? ==>
              r == Some(StartResult(fw.locateFile[|DRIVER_PATHS| - 1], None, None))
    ensures fw.firstLocate == NOT_FOUND && FindDriver(fw.locateFile).0.Some? && IsError(fw.loadImage) ==>
              r == Some(StartResult(fw.loadImage, FindDriver(fw.locateFile).0, None))
    ensures fw.firstLocate == NOT_FOUND && FindDriver(fw.locateFile).0.Some? && !IsError(fw.loadImage)
            && IsError(fw.startImage) ==>
              r == Some(StartResult(fw.startImage, FindDriver(fw.locateFile).0, None))
    ensures DriverRunning(fw) && IsError(fw.secondLocate) ==> r.Some? && r.value.status == fw.secondLocate
    ensures DriverRunning(fw) && !interactive ==> r.Some? && r.value.status == fw.secondLocate
    ensures interactive && DriverRunning(fw) && !IsError(fw.secondLocate) ==>
              r == (if InteractiveConfiguration(keys).None? then None
                    else Some(StartResult(fw.configure,
                                          if fw.firstLocate == NOT_FOUND then FindDriver(fw.locateFile).0 else None,
                                          InteractiveConfiguration(keys))))
  {
    if fw.firstLocate == NOT_FOUND && FindDriver(fw.locateFile).0.None? then
      Some(StartResult(FindDriver(fw.locateFile).1, None, None))
    else
      var loadedFrom := if fw.firstLocate == NOT_FOUND then FindDriver(fw.locateFile).0 else None;
      if loadedFrom.Some? && IsError(fw.loadImage) then Some(StartResult(fw.loadImage, loadedFrom, None))
      else if loadedFrom.Some? && IsError(fw.startImage) then Some(StartResult(fw.startImage, loadedFrom, None))
      else if IsError(fw.secondLocate) then Some(StartResult(fw.secondLocate, loadedFrom, None))
      else if !interactive then Some(StartResult(fw.secondLocate, loadedFrom, None))
      else
        var config := InteractiveConfiguration(keys);
        if config.None? then None
        else Some(StartResult(fw.configure, loadedFrom, config))
  }

  /** The status is SUCCESS (or a warning) only if every step that ran succeeded: the driver
      was found, loaded and started when it was not present, its protocol was located,
      and Configure succeeded when it was called. */
  lemma StartEfiGuardSucceedsOnlyIfAllStepsDo(interactive: bool, fw: DriverFirmware, keys: seq<Char16>)
    requires |fw.locateFile| == |DRIVER_PATHS|
    requires StartEfiGuard(interactive, fw, keys).Some?
    ensures var r := StartEfiGuard(interactive, fw, keys).value;
            !IsError(r.status) <==>
              && (fw.firstLocate == NOT_FOUND ==>
                    && FindDriver(fw.locateFile).0.Some?
                    && !IsError(fw.loadImage) && !IsError(fw.startImage))
              && !IsError(fw.secondLocate)
              && (interactive ==> !IsError(fw.configure))
    ensures var r := StartEfiGuard(interactive, fw, keys).value;
            fw.firstLocate == NOT_FOUND && !IsError(r.status) ==> r.loadedFrom == FindDriver(fw.locateFile).0
  {
  }

  /** Interactive configuration follows the menus: the first decisive key picks the bypass
      method and the next decisive key after it the wait flag. */
  lemma InteractiveConfigurationFollowsPrompts(keys: seq<Char16>, n1: nat, n2: nat)
    requires n1 < n2 < |keys|
    requires LoaderConsole.Decisive(ACCEPTED_DSE_BYPASSES, keys[n1])
    requires forall i :: 0 <= i < n1 ==> !LoaderConsole.Decisive(ACCEPTED_DSE_BYPASSES, keys[i])
    requires LoaderConsole.Decisive(NO_YES, keys[n2])
    requires forall i :: n1 < i < n2 ==> !LoaderConsole.Decisive(NO_YES, keys[i])
    ensures InteractiveConfiguration(keys)
            == Some(ConfigurationFor(LoaderConsole.Decision(ACCEPTED_DSE_BYPASSES, DEFAULT_SELECTION, keys[n1]),
                                     LoaderConsole.Decision(NO_YES, DEFAULT_SELECTION, keys[n2])))
  {
    TwoPrompts(ACCEPTED_DSE_BYPASSES, NO_YES, DEFAULT_SELECTION, keys, n1, n2);
  }

  /** Two prompts in a row over one stream of keys: each is decided by its first decisive key. */
  lemma TwoPrompts(accepted1: seq<Char16>, accepted2: seq<Char16>, default: Char16, keys: seq<Char16>, n1: nat, n2: nat)
    requires n1 < n2 < |keys|
    requires LoaderConsole.Decisive(accepted1, keys[n1])
    requires forall i :: 0 <= i < n1 ==> !LoaderConsole.Decisive(accepted1, keys[i])
    requires LoaderConsole.Decisive(accepted2, keys[n2])
    requires forall i :: n1 < i < n2 ==> !LoaderConsole.Decisive(accepted2, keys[i])
    ensures var p1 := LoaderConsole.PromptInput(accepted1, default, keys);
            && p1 == Some((LoaderConsole.Decision(accepted1, default, keys[n1]), keys[n1 + 1..]))
            && LoaderConsole.PromptInput(accepted2, default, p1.value.1)
               == Some((LoaderConsole.Decision(accepted2, default, keys[n2]), keys[n2 + 1..]))
  {
    LoaderConsole.PromptInputDecidedAt(accepted1, default, keys, n1);
    var p1 := LoaderConsole.PromptInput(accepted1, default, keys);
    assert p1.value.1 == keys[n1 + 1..];
    SecondPrompt(accepted2, default, keys, n1 + 1, n2);
  }

  /** The prompt that starts reading at keys[from] is decided by keys[to]. */
  lemma SecondPrompt(accepted: seq<Char16>, default: Char16, keys: seq<Char16>, from: nat, to: nat)
    requires from <= to < |keys|
    requires LoaderConsole.Decisive(accepted, keys[to])
    requires forall i :: from <= i < to ==> !LoaderConsole.Decisive(accepted, keys[i])
    ensures LoaderConsole.PromptInput(accepted, default, keys[from..])
            == Some((LoaderConsole.Decision(accepted, default, keys[to]), keys[to + 1..]))
  {
    var rest := keys[from..];
    QuietAfter(accepted, keys, from, to);
    LoaderConsole.PromptInputDecidedAt(accepted, default, rest, to - from);
    assert rest[to - from + 1..] == keys[to + 1..];
  }

  /** The keys from index from up to the decisive keys[to], seen from the suffix starting at from. */
  lemma QuietAfter(accepted: seq<Char16>, keys: seq<Char16>, from: nat, to: nat)
    requires from <= to < |keys|
    requires LoaderConsole.Decisive(accepted, keys[to])
    requires forall i :: from <= i < to ==> !LoaderConsole.Decisive(accepted, keys[i])
    ensures to - from < |keys[from..]| && LoaderConsole.Decisive(accepted, keys[from..][to - from])
    ensures forall i :: 0 <= i < to - from ==> !LoaderConsole.Decisive(accepted, keys[from..][i])
  {
    forall i | 0 <= i < to - from
      ensures !LoaderConsole.Decisive(accepted, keys[from..][i])
    {
      assert keys[from..][i] == keys[from + i];
    }
  }

  /** Once both prompts are answered, keys typed later change nothing. */
  lemma InteractiveConfigurationIgnoresLaterKeys(keys: seq<Char16>, later: seq<Char16>)
    requires InteractiveConfiguration(keys).Some?
    ensures InteractiveConfiguration(keys + later) == InteractiveConfiguration(keys)
  {
    var dse := LoaderConsole.PromptInput(ACCEPTED_DSE_BYPASSES, DEFAULT_SELECTION, keys);
    LoaderConsole.PromptInputIgnoresLaterKeys(ACCEPTED_DSE_BYPASSES, DEFAULT_SELECTION, keys, later);
    LoaderConsole.PromptInputIgnoresLaterKeys(NO_YES, DEFAULT_SELECTION, dse.value.1, later);
  }

  /** Pressing Enter twice configures the boot-time bypass without waiting. */
  lemma EnterTwiceGivesDefaults(fw: DriverFirmware)
    requires |fw.locateFile| == |DRIVER_PATHS|
    requires fw.firstLocate != NOT_FOUND && !IsError(fw.secondLocate)
    ensures StartEfiGuard(true, fw, [LoaderConsole.CHAR_CARRIAGE_RETURN, LoaderConsole.CHAR_CARRIAGE_RETURN])
            == Some(StartResult(fw.configure, None, Some(Configuration(DseDisableAtBoot, false))))
  {
  }
}
