/** The NT helper macros, status classification and flag masks the driver uses
    in place of the WDK headers, for an x64 build. Bit manipulation is stated on
    bit-vectors: a UINTN argument is a bv64, a ULONG/NTSTATUS bit pattern a bv32. */
module NtDef {
  import opened Common

  // ---------------------------------------------------------------------------
  // Word and byte extraction

  /** LOWORD(l): the low 16 bits of (UINTN)l. */
  function LoWord(l: bv64): (r: bv16)
    ensures r as bv64 == l % 0x1_0000
  {
    (l & 0xFFFF) as bv16
  }

  /** HIWORD(l): bits 16..31 of (UINTN)l. */
  function HiWord(l: bv64): (r: bv16)
    ensures r as bv64 == (l / 0x1_0000) % 0x1_0000
  {
    ((l >> 16) & 0xFFFF) as bv16
  }

  /** LOBYTE(w): the low 8 bits of (UINTN)w. */
  function LoByte(w: bv64): (r: bv8)
    ensures r as bv64 == w % 0x100
  {
    (w & 0xFF) as bv8
  }

  /** HIBYTE(w): bits 8..15 of (UINTN)w. */
  function HiByte(w: bv64): (r: bv8)
    ensures r as bv64 == (w / 0x100) % 0x100
  {
    ((w >> 8) & 0xFF) as bv8
  }

  /** HIWORD and LOWORD together are the low 32 bits of their argument. */
  lemma WordsRecombine(l: bv64)
    ensures (HiWord(l) as bv64) * 0x1_0000 + LoWord(l) as bv64 == l % 0x1_0000_0000
    ensures ((HiWord(l) as bv64) << 16) | LoWord(l) as bv64 == l & 0xFFFF_FFFF
  {
  }

  /** HIBYTE and LOBYTE together are the low 16 bits of their argument. */
  lemma BytesRecombine(w: bv64)
    ensures (HiByte(w) as bv64) * 0x100 + LoByte(w) as bv64 == w % 0x1_0000
    ensures ((HiByte(w) as bv64) << 8) | LoByte(w) as bv64 == w & 0xFFFF
  {
  }

  /** Splitting a 32-bit value into words, and each word into bytes, loses nothing. */
  lemma WordsAreInverseOfJoin(hi: bv16, lo: bv16)
    ensures var l := ((hi as bv64) << 16) | lo as bv64;
            HiWord(l) == hi && LoWord(l) == lo
  {
  }

  // ---------------------------------------------------------------------------
  // Language identifiers

  const LANG_NEUTRAL: bv32 := 0x00
  const SUBLANG_NEUTRAL: bv32 := 0x00

  /** MAKELANGID(p, s): `((UINT16)s << 10) | (UINT16)p`. The UINT16 operands are
      promoted to a 32-bit int before the shift, so the result is not cut to 16 bits. */
  function MakeLangId(primary: bv32, sub: bv32): (r: bv32)
    ensures r < 0x400_0000
  {
    ((sub & 0xFFFF) << 10) | (primary & 0xFFFF)
  }

  /** The fields of MAKELANGID(p, s): the low 10 bits are the primary language's, and
      above them sit the 16-bit sublanguage OR-ed with the primary's bits 10 to 15. */
  lemma MakeLangIdFields(primary: bv32, sub: bv32)
    ensures MakeLangId(primary, sub) & 0x3FF == primary & 0x3FF
    ensures MakeLangId(primary, sub) >> 10 == (sub & 0xFFFF) | ((primary & 0xFFFF) >> 10)
  {
  }

  lemma NeutralLangId()
    ensures MakeLangId(LANG_NEUTRAL, SUBLANG_NEUTRAL) == 0
  {
  }

  /** A primary id below 2^10 and a sublanguage below 2^6 are both recovered
      from the identifier, which then fits a 16-bit LANGID. */
  lemma LangIdRecoverable(primary: bv32, sub: bv32)
    requires primary < 0x400 && sub < 0x40
    ensures MakeLangId(primary, sub) & 0x3FF == primary
    ensures MakeLangId(primary, sub) >> 10 == sub
    ensures MakeLangId(primary, sub) < 0x1_0000
  {
  }

  /** Within those ranges distinct pairs give distinct identifiers. */
  lemma LangIdInjective(p1: bv32, s1: bv32, p2: bv32, s2: bv32)
    requires p1 < 0x400 && s1 < 0x40 && p2 < 0x400 && s2 < 0x40
    requires MakeLangId(p1, s1) == MakeLangId(p2, s2)
    ensures p1 == p2 && s1 == s2
  {
    LangIdRecoverable(p1, s1);
    LangIdRecoverable(p2, s2);
  }

  // ---------------------------------------------------------------------------
  // NTSTATUS classification

  /** The value of a 32-bit pattern read as a two's-complement INT32 (NTSTATUS). */
  function AsInt32(s: bv32): int {
    if s < 0x8000_0000 then s as int else s as int - 0x1_0000_0000
  }

  /** NT_SUCCESS(s): `(NTSTATUS)s >= 0`. */
  predicate NtSuccess(s: bv32) {
    AsInt32(s) >= 0
  }

  /** NT_INFORMATION / NT_WARNING / NT_ERROR: the top two bits, `(ULONG)s >> 30`, are 1, 2, 3. */
  predicate NtInformation(s: bv32) {
    s >> 30 == 1
  }

  predicate NtWarning(s: bv32) {
    s >> 30 == 2
  }

  predicate NtError(s: bv32) {
    s >> 30 == 3
  }

  /** Success is exactly "bit 31 clear". */
  lemma NtSuccessIsSignBitClear(s: bv32)
    ensures NtSuccess(s) <==> s & 0x8000_0000 == 0
  {
  }

  /** The severity classes are pairwise exclusive; information is a success,
      warnings and errors are not; and every status is a success or one of them. */
  lemma NtSeverityClasses(s: bv32)
    ensures !(NtInformation(s) && NtWarning(s))
    ensures !(NtInformation(s) && NtError(s))
    ensures !(NtWarning(s) && NtError(s))
    ensures NtInformation(s) ==> NtSuccess(s)
    ensures NtWarning(s) || NtError(s) ==> !NtSuccess(s)
    ensures !NtSuccess(s) <==> NtWarning(s) || NtError(s)
  {
  }

  // ---------------------------------------------------------------------------
  // Counted strings

  /** UNICODE_STRING: byte counts and the characters the Buffer pointer designates. */
  datatype UnicodeString = UnicodeString(length: U16, maximumLength: U16, buffer: seq<Char16>)

  /** RTL_CONSTANT_STRING(s) for a CHAR16 literal with the characters text:
      sizeof(s) counts the terminator, sizeof(s[0]) is 2, and both byte counts
      are stored in UINT16 fields. */
  function RtlConstantString(text: seq<Char16>): (r: UnicodeString)
    ensures |r.buffer| == |text| + 1
    ensures |text| < 0x7FFF ==> r.length as int == 2 * |text| && r.maximumLength as int == 2 * |text| + 2
    ensures r.buffer[..|text|] == text && r.buffer[|text|] == 0
  {
    var sizeOfLiteral := 2 * (|text| + 1);
    var sizeOfChar := 2;
    UnicodeString((sizeOfLiteral - sizeOfChar) % TWO_16, sizeOfLiteral % TWO_16, text + [0])
  }

  /** For any literal of fewer than 32767 characters, Length covers exactly the
      characters before the terminator and MaximumLength also covers the terminator. */
  lemma RtlConstantStringCoversText(text: seq<Char16>)
    requires |text| < 0x7FFF
    ensures var u := RtlConstantString(text);
            && u.buffer[..u.length / 2] == text
            && u.buffer[u.length / 2] == 0
            && u.maximumLength == u.length + 2
            && |u.buffer| * 2 == u.maximumLength
  {
  }

  // ---------------------------------------------------------------------------
  // Structure layout (x64 natural alignment)

  /** Every field is a C scalar of 1, 2, 4 or 8 bytes, aligned to its own size on x64. */
  predicate ScalarSizes(sizes: seq<nat>) {
    forall i :: 0 <= i < |sizes| ==> sizes[i] in {1, 2, 4, 8}
  }

  /** The least multiple of the alignment a that is at least x, each power of two written out. */
  function AlignUp(x: nat, a: nat): (r: nat)
    requires a in {1, 2, 4, 8}
    ensures r >= x
  {
    if a == 1 then x
    else if a == 2 then x + x % 2
    else if a == 4 then (if x % 4 == 0 then x else x + 4 - x % 4)
    else if x % 8 == 0 then x else x + 8 - x % 8
  }

  /** AlignUp(x, a) is a multiple of a less than a bytes past x, and x itself when x is aligned. */
  lemma AlignUpIsLeastMultiple(x: nat, a: nat)
    requires a in {1, 2, 4, 8}
    ensures AlignUp(x, a) % a == 0 && AlignUp(x, a) < x + a
    ensures x % a == 0 ==> AlignUp(x, a) == x
  {
    if a == 1 {
    } else if a == 2 {
      RoundsUpTo2(x);
    } else if a == 4 {
      RoundsUpTo4(x);
    } else {
      RoundsUpTo8(x);
    }
  }

  /** AlignUpIsLeastMultiple for each alignment above 1, with the quotient named. */
  lemma RoundsUpTo2(x: nat)
    ensures AlignUp(x, 2) % 2 == 0 && AlignUp(x, 2) < x + 2
    ensures x % 2 == 0 ==> AlignUp(x, 2) == x
  {
    var q := x / 2;
    if x % 2 != 0 { assert AlignUp(x, 2) == 2 * (q + 1); }
  }

  lemma RoundsUpTo4(x: nat)
    ensures AlignUp(x, 4) % 4 == 0 && AlignUp(x, 4) < x + 4
    ensures x % 4 == 0 ==> AlignUp(x, 4) == x
  {
    var q := x / 4;
    if x % 4 != 0 { assert AlignUp(x, 4) == 4 * (q + 1); }
  }

  lemma RoundsUpTo8(x: nat)
    ensures AlignUp(x, 8) % 8 == 0 && AlignUp(x, 8) < x + 8
    ensures x % 8 == 0 ==> AlignUp(x, 8) == x
  {
    var q := x / 8;
    if x % 8 != 0 { assert AlignUp(x, 8) == 8 * (q + 1); }
  }

  /** Context from the x64 C ABI rather than from ntdef.h, which only declares the
      structs: it is what gives InitializeObjectAttributes' `sizeof(OBJECT_ATTRIBUTES)`
      its value 0x30.

      The layout a C compiler gives a struct of scalar fields whose widest field is
      8 bytes: the first field at 0, each later field at the next offset aligned to its
      size after the end of the field before it, and sizeof the end of the last field
      rounded up to 8. */
  predicate NaturalLayout(sizes: seq<nat>, offsets: seq<nat>, size: nat)
    requires ScalarSizes(sizes)
  {
    && |offsets| == |sizes| > 0
    && offsets[0] == 0
    && (forall i :: 0 < i < |sizes| ==> offsets[i] == AlignUp(offsets[i - 1] + sizes[i - 1], sizes[i]))
    && size == AlignUp(offsets[|sizes| - 1] + sizes[|sizes| - 1], 8)
  }

  /** In a natural layout every field is aligned to its size, fields do not overlap and
      are separated by less padding than the next field's size, and sizeof is a multiple
      of 8 that covers the last field. */
  lemma NaturalLayoutAligned(sizes: seq<nat>, offsets: seq<nat>, size: nat)
    requires ScalarSizes(sizes)
    requires NaturalLayout(sizes, offsets, size)
    ensures forall i :: 0 <= i < |sizes| ==> offsets[i] % sizes[i] == 0
    ensures forall i :: 0 < i < |sizes| ==>
              offsets[i - 1] + sizes[i - 1] <= offsets[i] < offsets[i - 1] + sizes[i - 1] + sizes[i]
    ensures var last := |sizes| - 1;
            size % 8 == 0 && offsets[last] + sizes[last] <= size < offsets[last] + sizes[last] + 8
  {
    forall i | 0 < i < |sizes|
      ensures offsets[i] % sizes[i] == 0
      ensures offsets[i - 1] + sizes[i - 1] <= offsets[i] < offsets[i - 1] + sizes[i - 1] + sizes[i]
    {
      AlignUpIsLeastMultiple(offsets[i - 1] + sizes[i - 1], sizes[i]);
    }
    AlignUpIsLeastMultiple(offsets[|sizes| - 1] + sizes[|sizes| - 1], 8);
  }

  /** OBJECT_ATTRIBUTES: UINT32 Length, HANDLE RootDirectory, PUNICODE_STRING ObjectName,
      UINT32 Attributes, PVOID SecurityDescriptor, PVOID SecurityQualityOfService. */
  const OBJECT_ATTRIBUTES_FIELDS: seq<nat> := [4, 8, 8, 4, 8, 8]

  /** sizeof(OBJECT_ATTRIBUTES) on x64. */
  const SIZEOF_OBJECT_ATTRIBUTES: nat := 0x30

  /** OBJECT_ATTRIBUTES is 48 bytes with its fields at 0, 8, 16, 24, 32 and 40. */
  lemma ObjectAttributesLayout()
    ensures ScalarSizes(OBJECT_ATTRIBUTES_FIELDS)
    ensures NaturalLayout(OBJECT_ATTRIBUTES_FIELDS, [0, 8, 16, 24, 32, 40], SIZEOF_OBJECT_ATTRIBUTES)
  {
    var f := OBJECT_ATTRIBUTES_FIELDS;
    var o: seq<nat> := [0, 8, 16, 24, 32, 40];
    assert ScalarSizes(f);
    assert AlignUp(o[0] + f[0], f[1]) == o[1];
    assert AlignUp(o[1] + f[1], f[2]) == o[2];
    assert AlignUp(o[2] + f[2], f[3]) == o[3];
    assert AlignUp(o[3] + f[3], f[4]) == o[4];
    assert AlignUp(o[4] + f[4], f[5]) == o[5];
    assert AlignUp(o[5] + f[5], 8) == 48;
  }

  datatype ObjectAttributes = ObjectAttributes(
    length: U32,
    rootDirectory: U64,
    objectName: U64,
    attributes: U32,
    securityDescriptor: U64,
    securityQualityOfService: U64)

  /** InitializeObjectAttributes(p, n, a, r, s): every field of *p is assigned, so
      the result does not depend on what p held before. Attributes is cast to UINT32. */
  function InitializeObjectAttributes(name: U64, attributes: int, root: U64, securityDescriptor: U64)
    : (r: ObjectAttributes)
    ensures r.length == SIZEOF_OBJECT_ATTRIBUTES
    ensures r.securityQualityOfService == 0
    ensures r.rootDirectory == root && r.objectName == name && r.securityDescriptor == securityDescriptor
    ensures 0 <= attributes < TWO_32 ==> r.attributes == attributes
    ensures r.attributes == attributes % TWO_32
  {
    ObjectAttributes(
      length := SIZEOF_OBJECT_ATTRIBUTES,
      rootDirectory := root,
      objectName := name,
      attributes := attributes % TWO_32,
      securityDescriptor := securityDescriptor,
      securityQualityOfService := 0)
  }

  /** UNICODE_STRING: UINT16 Length, UINT16 MaximumLength, CHAR16* Buffer: 16 bytes, Buffer at 8. */
  lemma UnicodeStringLayout()
    ensures ScalarSizes([2, 2, 8])
    ensures NaturalLayout([2, 2, 8], [0, 2, 8], 16)
  {
  }

  // ---------------------------------------------------------------------------
  // Flag and access masks

  const OBJ_INHERIT: bv32 := 0x0000_0002
  const OBJ_PERMANENT: bv32 := 0x0000_0010
  const OBJ_EXCLUSIVE: bv32 := 0x0000_0020
  const OBJ_CASE_INSENSITIVE: bv32 := 0x0000_0040
  const OBJ_OPENIF: bv32 := 0x0000_0080
  const OBJ_OPENLINK: bv32 := 0x0000_0100
  const OBJ_KERNEL_HANDLE: bv32 := 0x0000_0200
  const OBJ_FORCE_ACCESS_CHECK: bv32 := 0x0000_0400
  const OBJ_IGNORE_IMPERSONATED_DEVICEMAP: bv32 := 0x0000_0800
  const OBJ_DONT_REPARSE: bv32 := 0x0000_1000
  const OBJ_VALID_ATTRIBUTES: bv32 := 0x0000_1FF2

  const OBJ_FLAGS: seq<bv32> := [OBJ_INHERIT, OBJ_PERMANENT, OBJ_EXCLUSIVE, OBJ_CASE_INSENSITIVE,
                                 OBJ_OPENIF, OBJ_OPENLINK, OBJ_KERNEL_HANDLE, OBJ_FORCE_ACCESS_CHECK,
                                 OBJ_IGNORE_IMPERSONATED_DEVICEMAP, OBJ_DONT_REPARSE]

  /** OBJ_VALID_ATTRIBUTES is exactly the union of the ten OBJ_* flags, which are distinct single bits. */
  lemma ObjValidAttributesIsUnion()
    ensures OBJ_VALID_ATTRIBUTES
            == OBJ_INHERIT | OBJ_PERMANENT | OBJ_EXCLUSIVE | OBJ_CASE_INSENSITIVE | OBJ_OPENIF
               | OBJ_OPENLINK | OBJ_KERNEL_HANDLE | OBJ_FORCE_ACCESS_CHECK
               | OBJ_IGNORE_IMPERSONATED_DEVICEMAP | OBJ_DONT_REPARSE
    ensures forall i, j :: 0 <= i < j < |OBJ_FLAGS| ==> OBJ_FLAGS[i] & OBJ_FLAGS[j] == 0
  {
  }

  const DELETE: bv32 := 0x0001_0000
  const READ_CONTROL: bv32 := 0x0002_0000
  const WRITE_DAC: bv32 := 0x0004_0000
  const WRITE_OWNER: bv32 := 0x0008_0000
  const SYNCHRONIZE: bv32 := 0x0010_0000
  const STANDARD_RIGHTS_REQUIRED: bv32 := 0x000F_0000
  const STANDARD_RIGHTS_READ: bv32 := READ_CONTROL
  const STANDARD_RIGHTS_WRITE: bv32 := READ_CONTROL
  const STANDARD_RIGHTS_EXECUTE: bv32 := READ_CONTROL
  const STANDARD_RIGHTS_ALL: bv32 := 0x001F_0000
  const SPECIFIC_RIGHTS_ALL: bv32 := 0x0000_FFFF
  const ACCESS_SYSTEM_SECURITY: bv32 := 0x0100_0000
  const MAXIMUM_ALLOWED: bv32 := 0x0200_0000
  const GENERIC_READ: bv32 := 0x8000_0000
  const GENERIC_WRITE: bv32 := 0x4000_0000
  const GENERIC_EXECUTE: bv32 := 0x2000_0000
  const GENERIC_ALL: bv32 := 0x1000_0000

  /** The standard-rights masks are built from the individual rights, and the
      standard, specific, special and generic groups occupy disjoint bits. */
  lemma AccessMasksConsistent()
    ensures STANDARD_RIGHTS_REQUIRED == DELETE | READ_CONTROL | WRITE_DAC | WRITE_OWNER
    ensures STANDARD_RIGHTS_ALL == STANDARD_RIGHTS_REQUIRED | SYNCHRONIZE
    ensures STANDARD_RIGHTS_READ & STANDARD_RIGHTS_REQUIRED == STANDARD_RIGHTS_READ
    ensures STANDARD_RIGHTS_ALL & SPECIFIC_RIGHTS_ALL == 0
    ensures (GENERIC_READ | GENERIC_WRITE | GENERIC_EXECUTE | GENERIC_ALL)
            & (STANDARD_RIGHTS_ALL | SPECIFIC_RIGHTS_ALL | ACCESS_SYSTEM_SECURITY | MAXIMUM_ALLOWED) == 0
  {
  }

  const FILE_ATTRIBUTE_READONLY: bv32 := 0x0000_0001
  const FILE_ATTRIBUTE_HIDDEN: bv32 := 0x0000_0002
  const FILE_ATTRIBUTE_SYSTEM: bv32 := 0x0000_0004
  const FILE_ATTRIBUTE_DIRECTORY: bv32 := 0x0000_0010
  const FILE_ATTRIBUTE_ARCHIVE: bv32 := 0x0000_0020
  const FILE_ATTRIBUTE_DEVICE: bv32 := 0x0000_0040
  const FILE_ATTRIBUTE_NORMAL: bv32 := 0x0000_0080
  const FILE_ATTRIBUTE_TEMPORARY: bv32 := 0x0000_0100
  const FILE_ATTRIBUTE_SPARSE_FILE: bv32 := 0x0000_0200
  const FILE_ATTRIBUTE_REPARSE_POINT: bv32 := 0x0000_0400
  const FILE_ATTRIBUTE_COMPRESSED: bv32 := 0x0000_0800
  const FILE_ATTRIBUTE_OFFLINE: bv32 := 0x0000_1000
  const FILE_ATTRIBUTE_NOT_CONTENT_INDEXED: bv32 := 0x0000_2000
  const FILE_ATTRIBUTE_ENCRYPTED: bv32 := 0x0000_4000
  const FILE_ATTRIBUTE_VIRTUAL: bv32 := 0x0001_0000
  const FILE_ATTRIBUTE_VALID_FLAGS: bv32 := 0x0000_7FB7
  const FILE_ATTRIBUTE_VALID_SET_FLAGS: bv32 := 0x0000_31A7

  /** Every settable attribute is a valid one; the valid flags are all attributes
      from READONLY to ENCRYPTED except DEVICE; the settable ones are the eight a
      caller may set (not DIRECTORY, SPARSE_FILE, REPARSE_POINT, COMPRESSED, ENCRYPTED). */
  lemma FileAttributeMasksConsistent()
    ensures FILE_ATTRIBUTE_VALID_SET_FLAGS & FILE_ATTRIBUTE_VALID_FLAGS == FILE_ATTRIBUTE_VALID_SET_FLAGS
    ensures FILE_ATTRIBUTE_VALID_FLAGS
            == FILE_ATTRIBUTE_READONLY | FILE_ATTRIBUTE_HIDDEN | FILE_ATTRIBUTE_SYSTEM
               | FILE_ATTRIBUTE_DIRECTORY | FILE_ATTRIBUTE_ARCHIVE | FILE_ATTRIBUTE_NORMAL
               | FILE_ATTRIBUTE_TEMPORARY | FILE_ATTRIBUTE_SPARSE_FILE | FILE_ATTRIBUTE_REPARSE_POINT
               | FILE_ATTRIBUTE_COMPRESSED | FILE_ATTRIBUTE_OFFLINE
               | FILE_ATTRIBUTE_NOT_CONTENT_INDEXED | FILE_ATTRIBUTE_ENCRYPTED
    ensures FILE_ATTRIBUTE_VALID_SET_FLAGS
            == FILE_ATTRIBUTE_READONLY | FILE_ATTRIBUTE_HIDDEN | FILE_ATTRIBUTE_SYSTEM
               | FILE_ATTRIBUTE_ARCHIVE | FILE_ATTRIBUTE_NORMAL | FILE_ATTRIBUTE_TEMPORARY
               | FILE_ATTRIBUTE_OFFLINE | FILE_ATTRIBUTE_NOT_CONTENT_INDEXED
    ensures FILE_ATTRIBUTE_VALID_FLAGS & (FILE_ATTRIBUTE_DEVICE | FILE_ATTRIBUTE_VIRTUAL) == 0
  {
  }
}
