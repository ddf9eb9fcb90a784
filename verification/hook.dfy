/** The inline-hook installer. Memory is one flat byte sequence indexed by
    physical address; a pointer is a 64-bit address and 0 is NULL. The
    write-protection-bypassing copy helper is modelled as a plain copy. */
module Hook {
  import opened Common
  import opened EfiStatus

  /** `FF 25 00 00 00 00`: JMP r/m64 (opcode FF /4) with ModRM 0x25, a RIP-relative
      indirect jump with displacement 0 in 64-bit mode, i.e. through the eight
      bytes that immediately follow the instruction. */
  const DETOUR: seq<Byte> := [0xFF, 0x25, 0x00, 0x00, 0x00, 0x00]

  /** Size of a full absolute jump: the detour plus its 64-bit target. */
  const STUB_LENGTH: nat := |DETOUR| + POINTER_SIZE

  type Memory = seq<Byte>

  /** The 14-byte absolute jump to target. */
  function Stub(target: U64): (r: seq<Byte>)
    ensures |r| == STUB_LENGTH == 14
    ensures r[..|DETOUR|] == DETOUR
  {
    DETOUR + Le(target, POINTER_SIZE)
  }

  /** Where the code at the start of bs jumps, if it begins with an absolute jump stub. */
  function DecodeStub(bs: seq<Byte>): (r: Option<U64>)
    ensures r.Some? <==> |bs| >= STUB_LENGTH && bs[..|DETOUR|] == DETOUR
  {
    if |bs| >= STUB_LENGTH && bs[..|DETOUR|] == DETOUR then
      Pow256Eight();
      Some(FromLe(bs[|DETOUR|..STUB_LENGTH]))
    else None
  }

  /** Decoding the stub written for a target yields that target. */
  lemma StubRoundTrip(target: U64)
    ensures DecodeStub(Stub(target)) == Some(target)
  {
    var s := Stub(target);
    assert s[|DETOUR|..STUB_LENGTH] == Le(target, POINTER_SIZE);
    Le64RoundTrip(target);
  }

  /** A jump stub is determined by where it jumps: the encoding is injective. */
  lemma StubDecodeRoundTrip(bs: seq<Byte>)
    requires DecodeStub(bs).Some?
    ensures Stub(DecodeStub(bs).value) == bs[..STUB_LENGTH]
  {
    LeFromLe(bs[|DETOUR|..STUB_LENGTH]);
    assert bs[..STUB_LENGTH] == bs[..|DETOUR|] + bs[|DETOUR|..STUB_LENGTH];
  }

  /** CopyWpMem(dst, src, n): dst[0..n) := src[0..n). */
  function CopyWpMem(mem: Memory, dst: nat, src: seq<Byte>): (r: Memory)
    requires dst + |src| <= |mem|
    ensures |r| == |mem|
    ensures r[dst..dst + |src|] == src
    ensures forall i :: 0 <= i < |mem| && !(dst <= i < dst + |src|) ==> r[i] == mem[i]
  {
    Splice(mem, dst, src)
  }

  /** Both argument checks of HookFunction pass. */
  predicate ArgumentsValid(func: U64, hookFunc: U64, prologueLength: U64, origFunc: U64) {
    func != 0 && hookFunc != 0 && origFunc != 0 && prologueLength >= STUB_LENGTH
  }

  /** What a caller of HookFunction promises once the arguments are valid: the
      prologue is readable, OrigFunc holds PrologueLength + 6 + sizeof(VOID*)
      bytes, and the two regions do not overlap. */
  predicate CallerBuffersValid(mem: Memory, func: U64, prologueLength: U64, origFunc: U64) {
    && func + prologueLength <= |mem|
    && origFunc + prologueLength + STUB_LENGTH <= |mem|
    && (func + prologueLength <= origFunc || origFunc + prologueLength + STUB_LENGTH <= func)
  }

  /** The address the trampoline continues at: Func + PrologueLength in UINT64 arithmetic. */
  function ContinueAddress(func: U64, prologueLength: U64): U64 {
    (prologueLength + func) % TWO_64
  }

  /** HookFunction(Func, HookFunc, PrologueLength, OrigFunc), returning the status
      and the memory afterwards. The five copies are made in the order of the source. */
  function HookFunction(mem: Memory, func: U64, hookFunc: U64, prologueLength: U64, origFunc: U64)
    : (r: (Status, Memory))
    requires ArgumentsValid(func, hookFunc, prologueLength, origFunc) ==>
               CallerBuffersValid(mem, func, prologueLength, origFunc)
    // the only failure is an invalid argument, and it writes nothing
    ensures r.0 == SUCCESS <==> ArgumentsValid(func, hookFunc, prologueLength, origFunc)
    ensures r.0 != SUCCESS ==> r.0 == INVALID_PARAMETER && r.1 == mem
    ensures |r.1| == |mem|
    // the trampoline: the saved prologue, then a jump back to Func + PrologueLength
    ensures r.0 == SUCCESS ==>
              r.1[origFunc..origFunc + prologueLength + STUB_LENGTH]
              == mem[func..func + prologueLength] + Stub(ContinueAddress(func, prologueLength))
    // the detour at Func: a jump to HookFunc
    ensures r.0 == SUCCESS ==> r.1[func..func + STUB_LENGTH] == Stub(hookFunc)
    // nothing else changes, including the stale prologue bytes Func[14..PrologueLength)
    ensures r.0 == SUCCESS ==>
              forall i :: 0 <= i < |mem| && !(func <= i < func + STUB_LENGTH)
                          && !(origFunc <= i < origFunc + prologueLength + STUB_LENGTH)
                          ==> r.1[i] == mem[i]
  {
    if func == 0 || hookFunc == 0 || origFunc == 0 then
      (INVALID_PARAMETER, mem)
    else if prologueLength < |DETOUR| + POINTER_SIZE then
      (INVALID_PARAMETER, mem)
    else
      var origJumpAddr := ContinueAddress(func, prologueLength);
      var m1 := CopyWpMem(mem, origFunc, mem[func..func + prologueLength]);
      var m2 := CopyWpMem(m1, origFunc + prologueLength, DETOUR);
      var m3 := CopyWpMem(m2, origFunc + prologueLength + |DETOUR|, Le(origJumpAddr, POINTER_SIZE));
      var m4 := CopyWpMem(m3, func, DETOUR);
      var m5 := CopyWpMem(m4, func + |DETOUR|, Le(hookFunc, POINTER_SIZE));
      TrampolineLayout(mem, m3, func, prologueLength, origFunc);
      DetourLayout(m3, m5, func, hookFunc);
      DetourSparesTrampoline(mem, m3, m5, func, prologueLength, origFunc);
      (SUCCESS, m5)
  }

  /** The three copies into OrigFunc build the trampoline and touch nothing else. */
  lemma TrampolineLayout(mem: Memory, m3: Memory, func: U64, prologueLength: U64, origFunc: U64)
    requires prologueLength >= STUB_LENGTH
    requires CallerBuffersValid(mem, func, prologueLength, origFunc)
    requires m3 == CopyWpMem(CopyWpMem(CopyWpMem(mem, origFunc, mem[func..func + prologueLength]),
                                       origFunc + prologueLength, DETOUR),
                             origFunc + prologueLength + |DETOUR|,
                             Le(ContinueAddress(func, prologueLength), POINTER_SIZE))
    ensures |m3| == |mem|
    ensures m3[origFunc..origFunc + prologueLength + STUB_LENGTH]
            == mem[func..func + prologueLength] + Stub(ContinueAddress(func, prologueLength))
    ensures forall i :: 0 <= i < |mem| && !(origFunc <= i < origFunc + prologueLength + STUB_LENGTH)
                        ==> m3[i] == mem[i]
  {
    var o, l := origFunc, prologueLength;
    var prologue := mem[func..func + l];
    var target := Le(ContinueAddress(func, l), POINTER_SIZE);
    SpliceAdjacent(mem, o, prologue, DETOUR);
    SpliceAdjacent(mem, o, prologue + DETOUR, target);
    assert prologue + DETOUR + target == prologue + Stub(ContinueAddress(func, l));
  }

  /** The two copies into Func write the stub and touch nothing else. */
  lemma DetourLayout(m3: Memory, m5: Memory, func: U64, hookFunc: U64)
    requires func + STUB_LENGTH <= |m3|
    requires m5 == CopyWpMem(CopyWpMem(m3, func, DETOUR), func + |DETOUR|, Le(hookFunc, POINTER_SIZE))
    ensures |m5| == |m3|
    ensures m5[func..func + STUB_LENGTH] == Stub(hookFunc)
    ensures forall i :: 0 <= i < |m3| && !(func <= i < func + STUB_LENGTH) ==> m5[i] == m3[i]
  {
    var m4 := CopyWpMem(m3, func, DETOUR);
    assert m5[func..func + |DETOUR|] == m4[func..func + |DETOUR|];
    assert m5[func..func + STUB_LENGTH] == m5[func..func + |DETOUR|] + m5[func + |DETOUR|..func + STUB_LENGTH];
  }

  /** The trampoline region lies outside the 14 bytes written into Func, so the
      detour leaves it as the trampoline copies built it. */
  lemma DetourSparesTrampoline(mem: Memory, m3: Memory, m5: Memory,
                               func: U64, prologueLength: U64, origFunc: U64)
    requires prologueLength >= STUB_LENGTH
    requires CallerBuffersValid(mem, func, prologueLength, origFunc)
    requires |m3| == |mem| && |m5| == |mem|
    requires forall i :: 0 <= i < |mem| && !(origFunc <= i < origFunc + prologueLength + STUB_LENGTH)
                         ==> m3[i] == mem[i]
    requires forall i :: 0 <= i < |mem| && !(func <= i < func + STUB_LENGTH) ==> m5[i] == m3[i]
    ensures m5[origFunc..origFunc + prologueLength + STUB_LENGTH]
            == m3[origFunc..origFunc + prologueLength + STUB_LENGTH]
    ensures forall i :: 0 <= i < |mem| && !(func <= i < func + STUB_LENGTH)
                        && !(origFunc <= i < origFunc + prologueLength + STUB_LENGTH)
                        ==> m5[i] == mem[i]
  {
  }

  /** After a successful hook, a call to Func lands on HookFunc. */
  lemma HookRedirects(mem: Memory, func: U64, hookFunc: U64, prologueLength: U64, origFunc: U64)
    requires ArgumentsValid(func, hookFunc, prologueLength, origFunc)
    requires CallerBuffersValid(mem, func, prologueLength, origFunc)
    ensures DecodeStub(HookFunction(mem, func, hookFunc, prologueLength, origFunc).1[func..])
            == Some(hookFunc)
  {
    var after := HookFunction(mem, func, hookFunc, prologueLength, origFunc).1;
    StubRoundTrip(hookFunc);
    assert after[func..][..STUB_LENGTH] == after[func..func + STUB_LENGTH];
    assert after[func..][|DETOUR|..STUB_LENGTH] == Stub(hookFunc)[|DETOUR|..STUB_LENGTH];
  }

  /** The code of a function occupying [func, func + size) does not overlap the trampoline. */
  predicate FunctionApart(mem: Memory, func: U64, size: nat, prologueLength: U64, origFunc: U64) {
    && prologueLength <= size
    && func + size <= |mem|
    && (func + size <= origFunc || origFunc + prologueLength + STUB_LENGTH <= func)
  }

  /** After a successful hook the original stays callable through OrigFunc: its
      stub jumps to Func + PrologueLength, and the saved prologue followed by the
      bytes found there is exactly the code of the function before the hook. */
  lemma HookKeepsOriginal(mem: Memory, func: U64, hookFunc: U64, prologueLength: U64, origFunc: U64,
                          size: nat)
    requires ArgumentsValid(func, hookFunc, prologueLength, origFunc)
    requires CallerBuffersValid(mem, func, prologueLength, origFunc)
    requires FunctionApart(mem, func, size, prologueLength, origFunc)
    ensures var after := HookFunction(mem, func, hookFunc, prologueLength, origFunc).1;
            && DecodeStub(after[origFunc + prologueLength..])
               == Some(ContinueAddress(func, prologueLength))
            && after[origFunc..origFunc + prologueLength] + after[func + prologueLength..func + size]
               == mem[func..func + size]
  {
    var after := HookFunction(mem, func, hookFunc, prologueLength, origFunc).1;
    TailUntouched(mem, after, func + prologueLength, func + size, func, func + STUB_LENGTH,
                  origFunc, origFunc + prologueLength + STUB_LENGTH);
    TrampolineResumes(mem, after, func, prologueLength, origFunc, size);
  }

  /** The trampoline property, stated of any memory with the layout HookFunction leaves. */
  lemma TrampolineResumes(mem: Memory, after: Memory, func: U64, prologueLength: U64, origFunc: U64,
                          size: nat)
    requires prologueLength >= STUB_LENGTH
    requires CallerBuffersValid(mem, func, prologueLength, origFunc)
    requires FunctionApart(mem, func, size, prologueLength, origFunc)
    requires |after| == |mem|
    requires after[origFunc..origFunc + prologueLength + STUB_LENGTH]
             == mem[func..func + prologueLength] + Stub(ContinueAddress(func, prologueLength))
    requires after[func + prologueLength..func + size] == mem[func + prologueLength..func + size]
    ensures DecodeStub(after[origFunc + prologueLength..]) == Some(ContinueAddress(func, prologueLength))
    ensures after[origFunc..origFunc + prologueLength] + after[func + prologueLength..func + size]
            == mem[func..func + size]
  {
    TrampolineJumps(after, origFunc, prologueLength, mem[func..func + prologueLength], ContinueAddress(func, prologueLength));
    PrologueRejoins(mem, after, func, prologueLength, size, origFunc, Stub(ContinueAddress(func, prologueLength)));
  }

  /** The prologue saved at o in front of a stub, followed by the untouched rest of the
      function, is the whole function. */
  lemma PrologueRejoins(mem: Memory, after: Memory, f: nat, l: nat, size: nat, o: nat, stub: seq<Byte>)
    requires l <= size && f + size <= |mem| == |after| && o + l + |stub| <= |after|
    requires after[o..o + l + |stub|] == mem[f..f + l] + stub
    requires after[f + l..f + size] == mem[f + l..f + size]
    ensures after[o..o + l] + after[f + l..f + size] == mem[f..f + size]
  {
    SavedPrologue(after, o, mem[f..f + l], stub);
    Rejoin(mem, f, f + l, f + size);
  }

  /** Memory holding a saved prologue followed by a stub holds the prologue alone in front. */
  lemma SavedPrologue(after: Memory, at: nat, prologue: seq<Byte>, stub: seq<Byte>)
    requires at + |prologue| + |stub| <= |after|
    requires after[at..at + |prologue| + |stub|] == prologue + stub
    ensures after[at..at + |prologue|] == prologue
  {
    assert after[at..at + |prologue|] == after[at..at + |prologue| + |stub|][..|prologue|];
  }

  /** A slice is its two halves joined. */
  lemma Rejoin(mem: Memory, lo: nat, mid: nat, hi: nat)
    requires lo <= mid <= hi <= |mem|
    ensures mem[lo..hi] == mem[lo..mid] + mem[mid..hi]
  {
  }

  /** Bytes from lo to hi, past the stub written at the function and clear of the
      trampoline, keep their old values. */
  lemma TailUntouched(mem: Memory, after: Memory, lo: nat, hi: nat, sLo: nat, sHi: nat, tLo: nat, tHi: nat)
    requires sHi <= lo <= hi <= |mem| == |after|
    requires hi <= tLo || tHi <= lo
    requires forall i :: 0 <= i < |mem| && !(sLo <= i < sHi) && !(tLo <= i < tHi) ==> after[i] == mem[i]
    ensures after[lo..hi] == mem[lo..hi]
  {
    forall i | lo <= i < hi
      ensures after[i] == mem[i]
    {
    }
  }

  /** Memory holding a saved prologue followed by the stub for target at at: the code
      after the prologue decodes as a jump to target. */
  lemma TrampolineJumps(after: Memory, at: nat, l: nat, prologue: seq<Byte>, target: U64)
    requires |prologue| == l && at + l + STUB_LENGTH <= |after|
    requires after[at..at + l + STUB_LENGTH] == prologue + Stub(target)
    ensures DecodeStub(after[at + l..]) == Some(target)
  {
    var rest := after[at + l..];
    assert rest[..STUB_LENGTH] == after[at..at + l + STUB_LENGTH][l..] == Stub(target);
    assert rest[..|DETOUR|] == Stub(target)[..|DETOUR|];
    assert rest[|DETOUR|..STUB_LENGTH] == Stub(target)[|DETOUR|..STUB_LENGTH];
    StubRoundTrip(target);
  }

  /** The continuation address is the byte right after the saved prologue
      unless Func + PrologueLength passes the top of the 64-bit address space. */
  lemma ContinueAddressExact(func: U64, prologueLength: U64)
    requires func + prologueLength < TWO_64
    ensures ContinueAddress(func, prologueLength) == func + prologueLength
  {
  }
}
