/** Console interaction of the loader: reading a menu choice from the keyboard and
    choosing the text mode with the most weighted screen area. Keystrokes and the
    console's answers are inputs; the screen output is not modelled. */
module LoaderConsole {
  import opened Common
  import opened EfiStatus

  const CHAR_NULL: Char16 := 0x0000
  const CHAR_LINEFEED: Char16 := 0x000A
  const CHAR_CARRIAGE_RETURN: Char16 := 0x000D

  /** A keystroke ends the prompt: Enter (CR or LF), or a non-NUL accepted character. */
  predicate Decisive(accepted: seq<Char16>, key: Char16) {
    key == CHAR_LINEFEED || key == CHAR_CARRIAGE_RETURN || (key != CHAR_NULL && key in accepted)
  }

  /** The choice a decisive keystroke makes: the default for Enter, the key itself otherwise. */
  function Decision(accepted: seq<Char16>, default: Char16, key: Char16): (r: Char16)
    requires Decisive(accepted, key)
    ensures r == default || (r in accepted && r != CHAR_NULL)
  {
    if key == CHAR_LINEFEED || key == CHAR_CARRIAGE_RETURN then default else key
  }

  /** PromptInput(AcceptedChars, NumAcceptedChars, DefaultSelection) over the keystrokes
      typed from now on: the selection and the keystrokes left unread, or None while no
      decisive key has been typed (the firmware call would still be waiting). Keys that are
      neither Enter nor accepted are read and ignored; a NUL key is ignored even when
      L'\0' is among the accepted characters. */
  function PromptInput(accepted: seq<Char16>, default: Char16, keys: seq<Char16>): (r: Option<(Char16, seq<Char16>)>)
    ensures r.Some? ==> r.value.0 == default || (r.value.0 in accepted && r.value.0 != CHAR_NULL)
    ensures r.Some? ==> |r.value.1| < |keys| && r.value.1 == keys[|keys| - |r.value.1|..]
  {
    if |keys| == 0 then None
    else if Decisive(accepted, keys[0]) then Some((Decision(accepted, default, keys[0]), keys[1..]))
    else PromptInput(accepted, default, keys[1..])
  }

  /** The prompt waits exactly when none of the keystrokes is decisive. */
  lemma {:induction false} PromptInputWaits(accepted: seq<Char16>, default: Char16, keys: seq<Char16>)
    ensures PromptInput(accepted, default, keys).None? <==> forall i :: 0 <= i < |keys| ==> !Decisive(accepted, keys[i])
  {
    if |keys| > 0 {
      PromptInputWaits(accepted, default, keys[1..]);
      assert forall i :: 0 < i < |keys| ==> keys[1..][i - 1] == keys[i];
    }
  }

  /** The prompt is decided by the first decisive keystroke, keys[n], and consumes it and
      everything before it. */
  lemma {:induction false} PromptInputDecidedAt(accepted: seq<Char16>, default: Char16, keys: seq<Char16>, n: nat)
    requires n < |keys| && Decisive(accepted, keys[n])
    requires forall i :: 0 <= i < n ==> !Decisive(accepted, keys[i])
    ensures PromptInput(accepted, default, keys) == Some((Decision(accepted, default, keys[n]), keys[n + 1..]))
  {
    if n > 0 {
      assert keys[1..][n - 1] == keys[n];
      assert keys[1..][n..] == keys[n + 1..];
      assert forall i :: 0 <= i < n - 1 ==> keys[1..][i] == keys[i + 1];
      PromptInputDecidedAt(accepted, default, keys[1..], n - 1);
    }
  }

  /** Keys typed after the decisive one do not change the selection. */
  lemma {:induction false} PromptInputIgnoresLaterKeys(accepted: seq<Char16>, default: Char16, keys: seq<Char16>, later: seq<Char16>)
    requires PromptInput(accepted, default, keys).Some?
    ensures PromptInput(accepted, default, keys + later)
            == Some((PromptInput(accepted, default, keys).value.0, PromptInput(accepted, default, keys).value.1 + later))
  {
    assert (keys + later)[0] == keys[0];
    if !Decisive(accepted, keys[0]) {
      assert (keys + later)[1..] == keys[1..] + later;
      PromptInputIgnoresLaterKeys(accepted, default, keys[1..], later);
    } else {
      assert (keys + later)[1..] == keys[1..] + later;
    }
  }

  // ---------------------------------------------------------------------------
  // SetHighestAvailableTextMode

  /** What QueryMode(ModeNum) returned: its status and, on success, the mode's size. */
  datatype ModeQuery = ModeQuery(status: Status, columns: U64, rows: U64)

  /** gST->ConOut as far as the mode choice is concerned: the current mode, the answer of
      QueryMode for each mode number 0 .. MaxMode-1, and what SetMode would return. */
  datatype ConsoleOut = ConsoleOut(currentMode: int, modes: seq<ModeQuery>, setModeStatus: Status)

  /** A mode the loop considers: QueryMode did not fail (a warning counts as success). */
  predicate Usable(q: ModeQuery) {
    !IsError(q.status)
  }

  /** (16 * Rows) * (10 * Cols) in UINTN arithmetic: a 16:10 weighting of the screen area. */
  function Weight(q: ModeQuery): (r: U64) {
    ((16 * q.rows) % TWO_64) * ((10 * q.columns) % TWO_64) % TWO_64
  }

  /** m is the best of the first n modes: usable, of maximal weight among the usable
      ones, and strictly heavier than every later usable one (ties go to the higher number). */
  predicate BestAmong(modes: seq<ModeQuery>, n: nat, m: nat)
    requires n <= |modes|
  {
    && m < n
    && Usable(modes[m])
    && (forall i :: 0 <= i < n && Usable(modes[i]) ==> Weight(modes[i]) <= Weight(modes[m]))
    && (forall i :: m < i < n && Usable(modes[i]) ==> Weight(modes[i]) < Weight(modes[m]))
  }

  /** Some of the first n modes can be queried. */
  predicate AnyUsable(modes: seq<ModeQuery>, n: nat)
    requires n <= |modes|
  {
    exists i :: 0 <= i < n && Usable(modes[i])
  }

  /** At most one mode is the best: the rule determines the choice. */
  lemma BestModeUnique(modes: seq<ModeQuery>, m1: nat, m2: nat)
    requires BestAmong(modes, |modes|, m1) && BestAmong(modes, |modes|, m2)
    ensures m1 == m2
  {
  }

  /** The outcome: the returned status, the mode chosen, and whether SetMode was called. */
  datatype TextModeResult = TextModeResult(status: Status, chosen: nat, setModeCalled: bool)

  /** SetHighestAvailableTextMode: NOT_READY without a console. Otherwise the chosen mode
      is the best usable one, mode 0 when none is usable; SetMode is called exactly when
      the choice differs from the current mode and then decides the status; without it
      the status is that of the last QueryMode call (SUCCESS when there are no modes). */
  method SetHighestAvailableTextMode(conOut: Option<ConsoleOut>) returns (r: TextModeResult)
    ensures conOut.None? ==> r == TextModeResult(NOT_READY, 0, false)
    ensures conOut.Some? ==> var c := conOut.value;
            && (AnyUsable(c.modes, |c.modes|) ==> BestAmong(c.modes, |c.modes|, r.chosen))
            && (!AnyUsable(c.modes, |c.modes|) ==> r.chosen == 0)
            && r.setModeCalled == (c.currentMode != r.chosen)
            && (r.setModeCalled ==> r.status == c.setModeStatus)
            && (!r.setModeCalled && |c.modes| == 0 ==> r.status == SUCCESS)
            && (!r.setModeCalled && |c.modes| > 0 ==> r.status == c.modes[|c.modes| - 1].status)
  {
    if conOut.None? {
      return TextModeResult(NOT_READY, 0, false);
    }
    var c := conOut.value;
    var maxModeNum: nat := 0;
    var maxWeight: U64 := 0;
    var status := SUCCESS;
    var modeNum := 0;
    while modeNum < |c.modes|
      invariant modeNum <= |c.modes|
      invariant AnyUsable(c.modes, modeNum) ==> BestAmong(c.modes, modeNum, maxModeNum) && maxWeight == Weight(c.modes[maxModeNum])
      invariant !AnyUsable(c.modes, modeNum) ==> maxModeNum == 0 && maxWeight == 0
      invariant modeNum == 0 ==> status == SUCCESS
      invariant modeNum > 0 ==> status == c.modes[modeNum - 1].status
    {
      var q := c.modes[modeNum];
      status := q.status;
      if !IsError(status) {
        var weight := Weight(q);
        if weight >= maxWeight {
          maxWeight := weight;
          maxModeNum := modeNum;
        }
      }
      modeNum := modeNum + 1;
    }
    var setModeCalled := c.currentMode != maxModeNum;
    if setModeCalled {
      status := c.setModeStatus;
    }
    return TextModeResult(status, maxModeNum, setModeCalled);
  }
}
