/**
 The 64-bit layout of block and page descriptors (section D4.3.3 of the ARMv8-A
 ARM, issue B.a): how xlat_desc builds one from memory attributes, and how the
 attributes are read back.
 */
module Descriptor {
  datatype Regime = EL1_EL0_REGIME | EL2_REGIME | EL3_REGIME

  // Region attributes.
  const MT_TYPE_MASK: bv32 := 0x7
  const MT_DEVICE: bv32 := 0
  const MT_NON_CACHEABLE: bv32 := 1
  const MT_MEMORY: bv32 := 2
  const MT_RW: bv32 := 0x8
  const MT_NS: bv32 := 0x10
  const MT_EXECUTE_NEVER: bv32 := 0x20
  const MT_USER: bv32 := 0x40
  const MT_CODE: bv32 := 2

  // Descriptor fields.
  const TABLE_ADDR_MASK: bv64 := 0x0000_ffff_ffff_f000
  const ACCESS_FLAG: bv64 := 0x100
  const NS: bv64 := 0x8
  const AP_RO: bv64 := 0x20
  const AP_RW: bv64 := 0
  const AP_ACCESS_UNPRIVILEGED: bv64 := 0x10
  const AP_NO_ACCESS_UNPRIVILEGED: bv64 := 0
  const AP_ONE_VA_RANGE_RES1: bv64 := 0x10
  const OSH: bv64 := 0x80
  const ISH: bv64 := 0xc0
  const ATTR_IWBWA_OWBWA_NTR_INDEX: bv64 := 0
  const ATTR_DEVICE_INDEX: bv64 := 1
  const ATTR_NON_CACHEABLE_INDEX: bv64 := 2
  const GP: bv64 := 0x0004_0000_0000_0000

  function LowerAttrs(x: bv64): bv64 { (x & 0xfff) << 2 }
  function UpperAttrs(x: bv64): bv64 { (x & 0x7) << 52 }

  // Execute-never bits of a regime.
  function XnDesc(regime: Regime): bv64 {
    if regime == EL1_EL0_REGIME then UpperAttrs(4) | UpperAttrs(2) else UpperAttrs(4)
  }

  function TypeBits(level: int): bv64 { if level == 3 then 3 else 1 }

  function Permissions(regime: Regime, attr: bv32): bv64 {
    LowerAttrs(ACCESS_FLAG)
    | (if attr & MT_NS != 0 then LowerAttrs(NS) else 0)
    | (if attr & MT_RW != 0 then LowerAttrs(AP_RW) else LowerAttrs(AP_RO))
    | (if regime == EL1_EL0_REGIME then
         (if attr & MT_USER != 0 then LowerAttrs(AP_ACCESS_UNPRIVILEGED) else LowerAttrs(AP_NO_ACCESS_UNPRIVILEGED))
       else LowerAttrs(AP_ONE_VA_RANGE_RES1))
  }

  // Shareability, memory type and executability.
  function Memory(regime: Regime, bti: bool, attr: bv32): bv64 {
    var memType := attr & MT_TYPE_MASK;
    if memType == MT_DEVICE then LowerAttrs(ATTR_DEVICE_INDEX | OSH) | XnDesc(regime)
    else
      (if attr & MT_RW != 0 || attr & MT_EXECUTE_NEVER != 0 then XnDesc(regime) else 0)
      | (if memType == MT_MEMORY then
           LowerAttrs(ATTR_IWBWA_OWBWA_NTR_INDEX | ISH)
           | (if bti && attr & (MT_TYPE_MASK | MT_RW | MT_EXECUTE_NEVER) == MT_CODE then GP else 0)
         else LowerAttrs(ATTR_NON_CACHEABLE_INDEX | OSH))
  }

  // The bits outside the address field.
  function Fields(regime: Regime, bti: bool, attr: bv32, level: int): bv64 {
    TypeBits(level) | Permissions(regime, attr) | Memory(regime, bti, attr)
  }

  // xlat_desc.  `bti` tells whether branch target identification is enabled
  // and present.
  function XlatDesc(regime: Regime, bti: bool, attr: bv32, pa: bv64, level: int): bv64 {
    pa | Fields(regime, bti, attr, level)
  }

  // The attributes that the fields of a descriptor stand for.
  function FromFields(attrIndex: bv64, writable: bool, user: bool, nonSecure: bool, executeNever: bool): bv32 {
    (if attrIndex == ATTR_IWBWA_OWBWA_NTR_INDEX then MT_MEMORY
     else if attrIndex == ATTR_NON_CACHEABLE_INDEX then MT_NON_CACHEABLE
     else MT_DEVICE)
    | (if writable then MT_RW else 0)
    | (if user then MT_USER else 0)
    | (if nonSecure then MT_NS else 0)
    | (if executeNever then MT_EXECUTE_NEVER else 0)
  }

  // The attributes xlat_get_mem_attributes_internal reads from a descriptor.
  function MemAttributes(regime: Regime, desc: bv64): bv32 {
    FromFields((desc >> 2) & 3, (desc >> 7) & 1 == 0, regime == EL1_EL0_REGIME && (desc >> 6) & 1 == 1,
               (desc >> 5) & 1 == 1, desc & XnDesc(regime) == XnDesc(regime))
  }

  predicate IsDevice(attr: bv32) { attr & MT_TYPE_MASK == MT_DEVICE }

  // The memory type an encoding stands for.  Attributes of no known type are
  // encoded as non-cacheable, past an assertion of the source.
  function MemType(attr: bv32): bv32 {
    if IsDevice(attr) then MT_DEVICE else if attr & MT_TYPE_MASK == MT_MEMORY then MT_MEMORY else MT_NON_CACHEABLE
  }

  // No execution: device memory, writable memory, or as requested.
  predicate NeverExecuted(attr: bv32) { IsDevice(attr) || attr & MT_RW != 0 || attr & MT_EXECUTE_NEVER != 0 }

  // What the hardware enforces of requested attributes: device and writable
  // memory are never executable, and user access exists only in EL1&0.
  function Effective(regime: Regime, attr: bv32): bv32 {
    MemType(attr) | (attr & (MT_RW | MT_NS))
    | (if regime == EL1_EL0_REGIME then attr & MT_USER else 0)
    | (if NeverExecuted(attr) then MT_EXECUTE_NEVER else 0)
  }

  // An output address: page-aligned, at most 48 bits.
  predicate OutputAddress(pa: bv64) { pa & TABLE_ADDR_MASK == pa }

  lemma FieldsOutside(regime: Regime, bti: bool, attr: bv32, level: int)
    ensures Fields(regime, bti, attr, level) & TABLE_ADDR_MASK == 0
  {
  }

  // No attribute field meets the address field: the address reads back exactly,
  // and so do the type bits.
  lemma AddressReadsBack(regime: Regime, bti: bool, attr: bv32, pa: bv64, level: int)
    requires OutputAddress(pa)
    ensures XlatDesc(regime, bti, attr, pa, level) & TABLE_ADDR_MASK == pa
    ensures XlatDesc(regime, bti, attr, pa, level) & !TABLE_ADDR_MASK == Fields(regime, bti, attr, level)
  {
    FieldsOutside(regime, bti, attr, level);
    var f := Fields(regime, bti, attr, level);
    OrSplit(pa, f);
  }

  lemma OrSplit(pa: bv64, f: bv64)
    requires OutputAddress(pa) && f & TABLE_ADDR_MASK == 0
    ensures (pa | f) & TABLE_ADDR_MASK == pa && (pa | f) & !TABLE_ADDR_MASK == f
  {
  }

  lemma LowBits(pa: bv64, f: bv64)
    requires OutputAddress(pa)
    ensures ((pa | f) >> 2) & 3 == (f >> 2) & 3
    ensures ((pa | f) >> 5) & 1 == (f >> 5) & 1 && ((pa | f) >> 6) & 1 == (f >> 6) & 1
    ensures ((pa | f) >> 7) & 1 == (f >> 7) & 1
  {
  }

  lemma HighBits(regime: Regime, pa: bv64, f: bv64)
    requires OutputAddress(pa)
    ensures (pa | f) & XnDesc(regime) == f & XnDesc(regime)
  {
  }

  // Attribute decoding does not look at the address.
  lemma DecodeFields(regime: Regime, pa: bv64, f: bv64)
    requires OutputAddress(pa)
    ensures MemAttributes(regime, pa | f) == MemAttributes(regime, f)
  {
    hide XnDesc, FromFields;
    LowBits(pa, f);
    HighBits(regime, pa, f);
  }

  lemma FieldsDecode(regime: Regime, bti: bool, attr: bv32, level: int)
    ensures MemAttributes(regime, Fields(regime, bti, attr, level)) == Effective(regime, attr)
  {
    IndexBits(regime, bti, attr, level);
    PermissionBits(regime, bti, attr, level);
    ExecuteNeverBits(regime, bti, attr, 0, level);
    assert XlatDesc(regime, bti, attr, 0, level) == Fields(regime, bti, attr, level);
    XnNotZero(regime);
    BitsDecode(regime, attr, Fields(regime, bti, attr, level));
  }

  lemma XnNotZero(regime: Regime)
    ensures XnDesc(regime) != 0
  {
  }

  lemma IndexBits(regime: Regime, bti: bool, attr: bv32, level: int)
    ensures (Fields(regime, bti, attr, level) >> 2) & 3 ==
      if IsDevice(attr) then 1 else if attr & MT_TYPE_MASK == MT_MEMORY then 0 else 2
  {
  }

  lemma PermissionBits(regime: Regime, bti: bool, attr: bv32, level: int)
    ensures var f := Fields(regime, bti, attr, level);
      && (f >> 5) & 1 == (if attr & MT_NS != 0 then 1 else 0)
      && (f >> 7) & 1 == (if attr & MT_RW != 0 then 0 else 1)
      && (regime == EL1_EL0_REGIME ==> (f >> 6) & 1 == (if attr & MT_USER != 0 then 1 else 0))
  {
  }

  // The bits of a descriptor decide what is read from it.
  lemma BitsDecode(regime: Regime, attr: bv32, f: bv64)
    requires (f >> 2) & 3 == if IsDevice(attr) then 1 else if attr & MT_TYPE_MASK == MT_MEMORY then 0 else 2
    requires (f >> 5) & 1 == (if attr & MT_NS != 0 then 1 else 0)
    requires (f >> 7) & 1 == (if attr & MT_RW != 0 then 0 else 1)
    requires regime == EL1_EL0_REGIME ==> (f >> 6) & 1 == (if attr & MT_USER != 0 then 1 else 0)
    requires XnDesc(regime) != 0
    requires f & XnDesc(regime) ==
      if NeverExecuted(attr) then XnDesc(regime) else 0
    ensures MemAttributes(regime, f) == Effective(regime, attr)
  {
    hide XnDesc;
  }

  // The execute-never bits are all set or all clear.
  lemma ExecuteNeverBits(regime: Regime, bti: bool, attr: bv32, pa: bv64, level: int)
    requires OutputAddress(pa)
    ensures XlatDesc(regime, bti, attr, pa, level) & XnDesc(regime) ==
      if NeverExecuted(attr) then XnDesc(regime) else 0
  {
  }

  // Reading a descriptor back gives the attributes the hardware enforces.
  lemma AttributesReadBack(regime: Regime, bti: bool, attr: bv32, pa: bv64, level: int)
    requires OutputAddress(pa)
    ensures MemAttributes(regime, XlatDesc(regime, bti, attr, pa, level)) == Effective(regime, attr)
  {
    FieldsDecode(regime, bti, attr, level);
    DecodeFields(regime, pa, Fields(regime, bti, attr, level));
  }

  // Encoding sees only what is enforced: attributes that enforce the same have
  // the same fields.
  lemma EffectiveEncodes(regime: Regime, bti: bool, attr: bv32, level: int)
    ensures Permissions(regime, Effective(regime, attr)) == Permissions(regime, attr)
    ensures Memory(regime, bti, Effective(regime, attr)) == Memory(regime, bti, attr)
  {
  }

  // The type bits of the level, the access flag, and the shareability of the
  // memory type: inner for normal cacheable memory, outer for all other.
  lemma TypeAndShareability(regime: Regime, bti: bool, attr: bv32, pa: bv64, level: int)
    requires OutputAddress(pa)
    ensures XlatDesc(regime, bti, attr, pa, level) & 3 == if level == 3 then 3 else 1
    ensures (XlatDesc(regime, bti, attr, pa, level) >> 10) & 1 == 1
    ensures (XlatDesc(regime, bti, attr, pa, level) >> 8) & 3 == if MemType(attr) == MT_MEMORY then 3 else 2
  {
    var f := Fields(regime, bti, attr, level);
    assert f & 3 == (if level == 3 then 3 else 1) && (f >> 10) & 1 == 1;
    assert (f >> 8) & 3 == if MemType(attr) == MT_MEMORY then 3 else 2;
    assert (pa | f) & 3 == f & 3 && ((pa | f) >> 10) & 1 == (f >> 10) & 1 && ((pa | f) >> 8) & 3 == (f >> 8) & 3;
  }

  // Bit 54 (XN or UXN) and, in EL1&0, bit 53 (PXN) forbid execution, bit 52 stays
  // clear.  Bit 50 (GP) guards code, and code alone, if branch targets are
  // identified.
  lemma UpperBits(regime: Regime, bti: bool, attr: bv32, pa: bv64, level: int)
    requires OutputAddress(pa)
    ensures var d := XlatDesc(regime, bti, attr, pa, level);
      && ((d >> 54) & 1 == 1 <==> NeverExecuted(attr))
      && ((d >> 53) & 1 == 1 <==> regime == EL1_EL0_REGIME && NeverExecuted(attr))
      && ((d >> 50) & 1 == 1 <==> bti && MemType(attr) == MT_MEMORY && !NeverExecuted(attr))
      && (d >> 52) & 1 == 0 && d >> 55 == 0
  {
    var f := Fields(regime, bti, attr, level);
    assert f >> 55 == 0 && (f >> 52) & 1 == 0;
    assert (f >> 54) & 1 == if NeverExecuted(attr) then 1 else 0;
    assert (f >> 53) & 1 == if regime == EL1_EL0_REGIME && NeverExecuted(attr) then 1 else 0;
    assert (f >> 50) & 1 == if bti && MemType(attr) == MT_MEMORY && !NeverExecuted(attr) then 1 else 0;
    HighField(pa, f);
  }

  lemma HighField(pa: bv64, f: bv64)
    requires OutputAddress(pa)
    ensures ((pa | f) >> 54) & 1 == (f >> 54) & 1 && ((pa | f) >> 53) & 1 == (f >> 53) & 1
    ensures ((pa | f) >> 52) & 1 == (f >> 52) & 1 && ((pa | f) >> 50) & 1 == (f >> 50) & 1
    ensures (pa | f) >> 55 == f >> 55
  {
  }

  // Bits 4 to 2 index the memory type, bit 5 is NS, bit 6 lets EL0 in and reads as
  // one where there is no EL0, bit 7 forbids writing.
  lemma LowerBits(regime: Regime, bti: bool, attr: bv32, pa: bv64, level: int)
    requires OutputAddress(pa)
    ensures var d := XlatDesc(regime, bti, attr, pa, level);
      && (d >> 2) & 7 == (if MemType(attr) == MT_MEMORY then 0 else if MemType(attr) == MT_DEVICE then 1 else 2)
      && ((d >> 5) & 1 == 1 <==> attr & MT_NS != 0)
      && ((d >> 6) & 1 == 1 <==> regime != EL1_EL0_REGIME || attr & MT_USER != 0)
      && ((d >> 7) & 1 == 1 <==> attr & MT_RW == 0)
  {
    var f := Fields(regime, bti, attr, level);
    assert (f >> 2) & 7 == if MemType(attr) == MT_MEMORY then 0 else if MemType(attr) == MT_DEVICE then 1 else 2;
    assert (f >> 6) & 1 == if regime != EL1_EL0_REGIME || attr & MT_USER != 0 then 1 else 0;
    PermissionBits(regime, bti, attr, level);
    LowField(pa, f);
  }

  lemma LowField(pa: bv64, f: bv64)
    requires OutputAddress(pa)
    ensures ((pa | f) >> 2) & 7 == (f >> 2) & 7 && ((pa | f) >> 5) & 1 == (f >> 5) & 1
    ensures ((pa | f) >> 6) & 1 == (f >> 6) & 1 && ((pa | f) >> 7) & 1 == (f >> 7) & 1
  {
  }

  // The address field is bits 47 to 12.
  lemma AddressField(pa: bv64)
    ensures OutputAddress(pa) <==> pa >> 48 == 0 && pa & 0xfff == 0
  {
  }

  // What is read of a descriptor, bit by bit.
  lemma BitsRead(regime: Regime, d: bv64)
    ensures var attr := MemAttributes(regime, d);
      && (attr & MT_RW != 0 <==> (d >> 7) & 1 == 0) && (attr & MT_NS != 0 <==> (d >> 5) & 1 == 1)
      && (attr & MT_USER != 0 <==> regime == EL1_EL0_REGIME && (d >> 6) & 1 == 1)
      && (attr & MT_EXECUTE_NEVER != 0 <==> (d >> 54) & 1 == 1 && (regime == EL1_EL0_REGIME ==> (d >> 53) & 1 == 1))
      && attr & MT_TYPE_MASK ==
           (if (d >> 2) & 3 == 0 then MT_MEMORY else if (d >> 2) & 3 == 2 then MT_NON_CACHEABLE else MT_DEVICE)
  {
    assert d & XnDesc(regime) == XnDesc(regime) <==>
      (d >> 54) & 1 == 1 && (regime == EL1_EL0_REGIME ==> (d >> 53) & 1 == 1);
  }

  // Building a descriptor again from what was read gives the same descriptor.
  lemma Reencode(regime: Regime, bti: bool, attr: bv32, pa: bv64, level: int)
    requires OutputAddress(pa)
    ensures var d := XlatDesc(regime, bti, attr, pa, level);
      XlatDesc(regime, bti, MemAttributes(regime, d), d & TABLE_ADDR_MASK, level) == d
  {
    AddressReadsBack(regime, bti, attr, pa, level);
    AttributesReadBack(regime, bti, attr, pa, level);
    EffectiveEncodes(regime, bti, attr, level);
  }

  // Descriptors that enforce different things, or point elsewhere, differ.
  lemma SameMeaning(regime: Regime, bti: bool, attr: bv32, pa: bv64, attr': bv32, pa': bv64, level: int)
    requires OutputAddress(pa) && OutputAddress(pa')
    requires XlatDesc(regime, bti, attr, pa, level) == XlatDesc(regime, bti, attr', pa', level)
    ensures pa == pa' && Effective(regime, attr) == Effective(regime, attr')
  {
    AddressReadsBack(regime, bti, attr, pa, level);
    AddressReadsBack(regime, bti, attr', pa', level);
    AttributesReadBack(regime, bti, attr, pa, level);
    AttributesReadBack(regime, bti, attr', pa', level);
  }

  // ---- changed attributes --------------------------------------------------

  const CHANGEABLE: bv32 := 0x68  // MT_RW | MT_EXECUTE_NEVER | MT_USER

  // Attributes of a page after a change: only access, execution and user
  // permission are taken from the request.
  function Changed(old_: bv32, attr: bv32): bv32 {
    (old_ & !CHANGEABLE) | (attr & CHANGEABLE)
  }

  // A request that is not writable and executable, and not executable on device
  // memory, reads back exactly as requested; type and security state stay.
  lemma ChangeReadsBack(regime: Regime, was: bv32, attr: bv32)
    requires !(attr & MT_EXECUTE_NEVER == 0 && attr & MT_RW != 0)
    requires IsDevice(was) ==> attr & MT_EXECUTE_NEVER != 0
    ensures var now := Effective(regime, Changed(Effective(regime, was), attr));
      && now & MT_RW == attr & MT_RW && now & MT_EXECUTE_NEVER == attr & MT_EXECUTE_NEVER
      && now & MT_USER == (if regime == EL1_EL0_REGIME then attr & MT_USER else 0)
      && now & MT_TYPE_MASK == MemType(was) && now & MT_NS == was & MT_NS
  {
  }

  // Changing a page twice the same way is changing it once.
  lemma ChangeTwice(regime: Regime, was: bv32, attr: bv32)
    ensures var once := Changed(Effective(regime, was), attr);
      Changed(Effective(regime, once), attr) == once
  {
  }
}
