/** The fields of the ASIC registers and the bits they occupy. */
module AsicFields {

  import opened Wrappers

  datatype Subtype = Tofpet2B | Tofpet2C

  datatype GlobalField =
    | TxNlinks | TxDdr | TxMode | DebugMode | VetoMode | TdcClkDiv | RClkEn | StopRampEn | CounterEn
    | CounterPeriod | TacRefreshEn | TacRefreshPeriod | DataClkDiv | Unused1 | FetpEnable | InputPolarity
    | AttenuatorLs | VRefDiffBiasIg | VCalRefIg | FePostampT | FePostampE | VCalTpTop | VCalDiffBiasIg
    | VAttDiffBiasIg | VIntegRefIg | ImirrorBiasTop | TdcCompBias | TdcILsb | DiscLsbT1 | FeIb2
    | Vdifffoldcas | DiscVcas | DiscLsbE | TdcIRef | TdcCompVcas | MainGlobalDac | FeIb1 | DiscIb
    | DiscLsbT2 | TdcTacVcasP | TdcTacVcasN | AdebugOutMode | TdcGlobalDac | DiscSfBias | AdebugBuffer

  datatype ChannelField =
    | TriggerMode1 | DebugMode | SyncChainLength | DeadTime | CounterMode | TacMaxAge | TacMinAge
    | TriggerMode2T | TriggerMode2E | TriggerMode2Q | TriggerMode2B | BranchEnEq | BranchEnT | QdcMode
    | TriggerBLatched | MinIntgTime | MaxIntgTime | OutputEn | Qtx2En | BaselineT | VthT1 | VthT2 | VthE
    | BaselineE | FeDelay | PostampGainT | PostampGainE | PostampShE | IntgEn | IntgSignalEn | Att
    | TdcCurrentT | TdcCurrentE | FeTpEn | Ch63ObufMsb | IntegSourceSw | T1Hysteresis | T2Hysteresis
    | EHysteresis | HysteresisEnN

  datatype Field = Global(g: GlobalField) | Channel(c: ChannelField)

  /** Bits first..last - 1 in this order or the other way round, or a list of bits. */
  datatype Layout = Absent | Up(first: nat, last: nat) | Down(first: nat, last: nat) | Listed(bits: seq<nat>)

  function GlobalLayout(subtype: Subtype, f: GlobalField): Layout {
    match f
    case TxNlinks => Down(0, 2)
    case TxDdr => Down(2, 3)
    case TxMode => Down(3, 5)
    case DebugMode => Down(5, 6)
    case VetoMode => Down(6, 12)
    case TdcClkDiv => Down(12, 13)
    case RClkEn => Down(13, 16)
    case StopRampEn => Down(18, 20)
    case CounterEn => Down(20, 21)
    case CounterPeriod => Down(21, 24)
    case TacRefreshEn => Down(24, 25)
    case TacRefreshPeriod => Down(25, 29)
    case DataClkDiv => Down(29, 31)
    case Unused1 => Up(31, 32)
    case FetpEnable => Up(32, 33)
    case InputPolarity => Up(33, 34)
    case AttenuatorLs => Up(34, 40)
    case VRefDiffBiasIg => Up(40, 46)
    case VCalRefIg => Up(46, 51)
    case FePostampT => Up(51, 56)
    case FePostampE => Up(56, 61)
    case VCalTpTop => Up(61, 66)
    case VCalDiffBiasIg => Up(66, 71)
    case VAttDiffBiasIg => Up(71, 77)
    case VIntegRefIg => Up(77, 83)
    case ImirrorBiasTop => Up(83, 88)
    case TdcCompBias => Up(88, 93)
    case TdcILsb => Up(93, 98)
    case DiscLsbT1 => Up(98, 104)
    case FeIb2 =>
      if subtype == Tofpet2B then Listed([134, 104, 105, 106, 107, 108])
      else Listed([134, 176, 104, 105, 106, 107, 108])
    case Vdifffoldcas => Up(109, 115)
    case DiscVcas => Up(115, 119)
    case DiscLsbE => Up(119, 125)
    case TdcIRef => Up(125, 130)
    case TdcCompVcas => Up(130, 134)
    case MainGlobalDac => Up(135, 140)
    case FeIb1 => Up(140, 146)
    case DiscIb => Up(146, 152)
    case DiscLsbT2 => Up(152, 158)
    case TdcTacVcasP => Up(158, 163)
    case TdcTacVcasN => Up(163, 167)
    case AdebugOutMode => Up(167, 169)
    case TdcGlobalDac => Up(169, 175)
    case DiscSfBias => Up(178, 184)
    case AdebugBuffer => if subtype == Tofpet2B then Absent else Listed([175])
  }

  function ChannelLayout(subtype: Subtype, f: ChannelField): Layout {
    match f
    case TriggerMode1 => Down(0, 2)
    case DebugMode => Down(2, 4)
    case SyncChainLength => Down(4, 6)
    case DeadTime => Down(6, 12)
    case CounterMode => Down(12, 16)
    case TacMaxAge => Down(16, 21)
    case TacMinAge => Down(21, 26)
    case TriggerMode2T => Down(26, 28)
    case TriggerMode2E => Down(28, 31)
    case TriggerMode2Q => Down(31, 33)
    case TriggerMode2B => Down(33, 36)
    case BranchEnEq => Down(36, 37)
    case BranchEnT => Down(37, 38)
    case QdcMode => Down(38, 39)
    case TriggerBLatched => Down(39, 40)
    case MinIntgTime => Down(40, 47)
    case MaxIntgTime => Down(47, 54)
    case OutputEn => Down(54, 56)
    case Qtx2En => Down(56, 57)
    case BaselineT => Down(57, 63)
    case VthT1 => Down(63, 69)
    case VthT2 => Down(69, 75)
    case VthE => Down(75, 81)
    case BaselineE => if subtype == Tofpet2B then Down(81, 84) else Listed([82, 83, 81])
    case FeDelay => Listed([84, 88, 87, 85, 86])
    case PostampGainT => Up(89, 91)
    case PostampGainE => Up(91, 93)
    case PostampShE => Down(93, 95)
    case IntgEn => Down(95, 96)
    case IntgSignalEn => Down(96, 97)
    case Att => Down(97, 100)
    case TdcCurrentT => Down(100, 104)
    case TdcCurrentE => Down(104, 108)
    case FeTpEn => Down(108, 110)
    case Ch63ObufMsb => Down(110, 111)
    case IntegSourceSw => if subtype == Tofpet2B then Down(111, 112) else Down(111, 113)
    case T1Hysteresis => Down(115, 118)
    case T2Hysteresis => Down(118, 121)
    case EHysteresis => Down(121, 124)
    case HysteresisEnN => Down(124, 125)
  }

  function LayoutOf(subtype: Subtype, f: Field): Layout {
    if f.Global? then GlobalLayout(subtype, f.g) else ChannelLayout(subtype, f.c)
  }

  function Expanded(l: Layout): seq<nat> {
    match l
    case Absent => []
    case Up(first, last) => if first <= last then seq(last - first, i requires i >= 0 => first + i) else []
    case Down(first, last) =>
      if first <= last then seq(last - first, i requires 0 <= i < last - first => last - 1 - i) else []
    case Listed(bits) => bits
  }

  /** The bits of a field, most significant first. */
  function Index(subtype: Subtype, f: Field): seq<nat> { Expanded(LayoutOf(subtype, f)) }

  function Length(f: Field): nat { if f.Global? then 184 else 125 }

  // ---------- No two fields share a bit ----------

  /** The field that a bit belongs to, if any. */
  function GlobalOwner(subtype: Subtype, bit: nat): Option<GlobalField> {
    if bit < 2 then Some(TxNlinks) else
    if bit < 3 then Some(TxDdr) else
    if bit < 5 then Some(TxMode) else
    if bit < 6 then Some(GlobalField.DebugMode) else
    if bit < 12 then Some(VetoMode) else
    if bit < 13 then Some(TdcClkDiv) else
    if bit < 16 then Some(RClkEn) else
    if bit < 18 then None else
    if bit < 20 then Some(StopRampEn) else
    if bit < 21 then Some(CounterEn) else
    if bit < 24 then Some(CounterPeriod) else
    if bit < 25 then Some(TacRefreshEn) else
    if bit < 29 then Some(TacRefreshPeriod) else
    if bit < 31 then Some(DataClkDiv) else
    if bit < 32 then Some(Unused1) else
    if bit < 33 then Some(FetpEnable) else
    if bit < 34 then Some(InputPolarity) else
    if bit < 40 then Some(AttenuatorLs) else
    if bit < 46 then Some(VRefDiffBiasIg) else
    if bit < 51 then Some(VCalRefIg) else
    if bit < 56 then Some(FePostampT) else
    if bit < 61 then Some(FePostampE) else
    if bit < 66 then Some(VCalTpTop) else
    if bit < 71 then Some(VCalDiffBiasIg) else
    if bit < 77 then Some(VAttDiffBiasIg) else
    if bit < 83 then Some(VIntegRefIg) else
    if bit < 88 then Some(ImirrorBiasTop) else
    if bit < 93 then Some(TdcCompBias) else
    if bit < 98 then Some(TdcILsb) else
    if bit < 104 then Some(DiscLsbT1) else
    if bit < 109 then Some(FeIb2) else
    if bit < 115 then Some(Vdifffoldcas) else
    if bit < 119 then Some(DiscVcas) else
    if bit < 125 then Some(DiscLsbE) else
    if bit < 130 then Some(TdcIRef) else
    if bit < 134 then Some(TdcCompVcas) else
    if bit < 135 then Some(FeIb2) else
    if bit < 140 then Some(MainGlobalDac) else
    if bit < 146 then Some(FeIb1) else
    if bit < 152 then Some(DiscIb) else
    if bit < 158 then Some(DiscLsbT2) else
    if bit < 163 then Some(TdcTacVcasP) else
    if bit < 167 then Some(TdcTacVcasN) else
    if bit < 169 then Some(AdebugOutMode) else
    if bit < 175 then Some(TdcGlobalDac) else
    if bit < 176 then (if subtype == Tofpet2B then None else Some(AdebugBuffer)) else
    if bit < 177 then (if subtype == Tofpet2B then None else Some(FeIb2)) else
    if bit < 178 then None else
    if bit < 184 then Some(DiscSfBias) else
    None
  }

  function ChannelOwner(subtype: Subtype, bit: nat): Option<ChannelField> {
    if bit < 2 then Some(TriggerMode1) else
    if bit < 4 then Some(ChannelField.DebugMode) else
    if bit < 6 then Some(SyncChainLength) else
    if bit < 12 then Some(DeadTime) else
    if bit < 16 then Some(CounterMode) else
    if bit < 21 then Some(TacMaxAge) else
    if bit < 26 then Some(TacMinAge) else
    if bit < 28 then Some(TriggerMode2T) else
    if bit < 31 then Some(TriggerMode2E) else
    if bit < 33 then Some(TriggerMode2Q) else
    if bit < 36 then Some(TriggerMode2B) else
    if bit < 37 then Some(BranchEnEq) else
    if bit < 38 then Some(BranchEnT) else
    if bit < 39 then Some(QdcMode) else
    if bit < 40 then Some(TriggerBLatched) else
    if bit < 47 then Some(MinIntgTime) else
    if bit < 54 then Some(MaxIntgTime) else
    if bit < 56 then Some(OutputEn) else
    if bit < 57 then Some(Qtx2En) else
    if bit < 63 then Some(BaselineT) else
    if bit < 69 then Some(VthT1) else
    if bit < 75 then Some(VthT2) else
    if bit < 81 then Some(VthE) else
    if bit < 84 then Some(BaselineE) else
    if bit < 89 then Some(FeDelay) else
    if bit < 91 then Some(PostampGainT) else
    if bit < 93 then Some(PostampGainE) else
    if bit < 95 then Some(PostampShE) else
    if bit < 96 then Some(IntgEn) else
    if bit < 97 then Some(IntgSignalEn) else
    if bit < 100 then Some(Att) else
    if bit < 104 then Some(TdcCurrentT) else
    if bit < 108 then Some(TdcCurrentE) else
    if bit < 110 then Some(FeTpEn) else
    if bit < 111 then Some(Ch63ObufMsb) else
    if bit < 112 then Some(IntegSourceSw) else
    if bit < 113 then (if subtype == Tofpet2B then None else Some(IntegSourceSw)) else
    if bit < 115 then None else
    if bit < 118 then Some(T1Hysteresis) else
    if bit < 121 then Some(T2Hysteresis) else
    if bit < 124 then Some(EHysteresis) else
    if bit < 125 then Some(HysteresisEnN) else
    None
  }

  predicate Owns(subtype: Subtype, f: Field, bit: nat) {
    if f.Global? then GlobalOwner(subtype, bit) == Some(f.g) else ChannelOwner(subtype, bit) == Some(f.c)
  }

  /** The bits of a field belong to it and lie inside the register, */
  lemma BitsAreOwned(subtype: Subtype, f: Field)
    ensures forall a :: 0 <= a < |Index(subtype, f)| ==>
      Index(subtype, f)[a] < Length(f) && Owns(subtype, f, Index(subtype, f)[a])
  {
    forall a: nat | a < |Index(subtype, f)|
      ensures Index(subtype, f)[a] < Length(f) && Owns(subtype, f, Index(subtype, f)[a])
    {
      if f.Global? { GlobalBits(subtype, f.g, a); } else { ChannelBits(subtype, f.c, a); }
    }
  }

  lemma GlobalBits(subtype: Subtype, f: GlobalField, a: nat)
    requires a < |Index(subtype, Global(f))|
    ensures Index(subtype, Global(f))[a] < 184 && GlobalOwner(subtype, Index(subtype, Global(f))[a]) == Some(f)
  {
    hide *;
    match GlobalLayout(subtype, f)
    case Up(_, _) => GlobalBitsUp(subtype, f, a);
    case Down(_, _) => GlobalBitsDown(subtype, f, a);
    case _ => GlobalBitsListed(subtype, f, a);
  }

  lemma GlobalBitsUp(subtype: Subtype, f: GlobalField, a: nat)
    requires a < |Index(subtype, Global(f))| && GlobalLayout(subtype, f).Up?
    ensures Index(subtype, Global(f))[a] < 184 && GlobalOwner(subtype, Index(subtype, Global(f))[a]) == Some(f)
  {
  }

  lemma GlobalBitsDown(subtype: Subtype, f: GlobalField, a: nat)
    requires a < |Index(subtype, Global(f))| && GlobalLayout(subtype, f).Down?
    ensures Index(subtype, Global(f))[a] < 184 && GlobalOwner(subtype, Index(subtype, Global(f))[a]) == Some(f)
  {
  }

  lemma GlobalBitsListed(subtype: Subtype, f: GlobalField, a: nat)
    requires a < |Index(subtype, Global(f))| && !GlobalLayout(subtype, f).Up? && !GlobalLayout(subtype, f).Down?
    ensures Index(subtype, Global(f))[a] < 184 && GlobalOwner(subtype, Index(subtype, Global(f))[a]) == Some(f)
  {
  }

  lemma ChannelBits(subtype: Subtype, f: ChannelField, a: nat)
    requires a < |Index(subtype, Channel(f))|
    ensures Index(subtype, Channel(f))[a] < 125 && ChannelOwner(subtype, Index(subtype, Channel(f))[a]) == Some(f)
  {
    hide *;
    match ChannelLayout(subtype, f)
    case Up(_, _) => ChannelBitsUp(subtype, f, a);
    case Down(_, _) => ChannelBitsDown(subtype, f, a);
    case _ => ChannelBitsListed(subtype, f, a);
  }

  lemma ChannelBitsUp(subtype: Subtype, f: ChannelField, a: nat)
    requires a < |Index(subtype, Channel(f))| && ChannelLayout(subtype, f).Up?
    ensures Index(subtype, Channel(f))[a] < 125 && ChannelOwner(subtype, Index(subtype, Channel(f))[a]) == Some(f)
  {
  }

  lemma ChannelBitsDown(subtype: Subtype, f: ChannelField, a: nat)
    requires a < |Index(subtype, Channel(f))| && ChannelLayout(subtype, f).Down?
    ensures Index(subtype, Channel(f))[a] < 125 && ChannelOwner(subtype, Index(subtype, Channel(f))[a]) == Some(f)
  {
  }

  lemma ChannelBitsListed(subtype: Subtype, f: ChannelField, a: nat)
    requires a < |Index(subtype, Channel(f))| && !ChannelLayout(subtype, f).Up? && !ChannelLayout(subtype, f).Down?
    ensures Index(subtype, Channel(f))[a] < 125 && ChannelOwner(subtype, Index(subtype, Channel(f))[a]) == Some(f)
  {
  }

  /** no bit occurs twice in a field, */
  lemma BitsAreDistinct(subtype: Subtype, f: Field)
    ensures forall a, b :: 0 <= a < b < |Index(subtype, f)| ==> Index(subtype, f)[a] != Index(subtype, f)[b]
  {
    if f.Global? { GlobalBitsAreDistinct(subtype, f.g); } else { ChannelBitsAreDistinct(subtype, f.c); }
    hide Index;
  }

  lemma GlobalBitsAreDistinct(subtype: Subtype, g: GlobalField)
    ensures var index := Index(subtype, Global(g)); forall a, b :: 0 <= a < b < |index| ==> index[a] != index[b]
  {
  }

  lemma ChannelBitsAreDistinct(subtype: Subtype, c: ChannelField)
    ensures var index := Index(subtype, Channel(c)); forall a, b :: 0 <= a < b < |index| ==> index[a] != index[b]
  {
  }

  /** no bit belongs to two fields, */
  lemma OwnersAreUnique(subtype: Subtype, f: Field, g: Field, bit: nat)
    requires f.Global? == g.Global? && Owns(subtype, f, bit) && Owns(subtype, g, bit)
    ensures f == g
  {
  }

  predicate Covers(l: Layout, bit: nat) {
    match l
    case Absent => false
    case Up(first, last) => first <= bit < last
    case Down(first, last) => first <= bit < last
    case Listed(bits) => bit in bits
  }

  lemma CoversExpanded(l: Layout, bit: nat)
    requires Covers(l, bit)
    ensures bit in Expanded(l)
  {
    match l
    case Up(first, last) => assert Expanded(l)[bit - first] == bit;
    case Down(first, last) => assert Expanded(l)[last - 1 - bit] == bit;
    case _ =>
  }

  lemma GlobalCovers0(subtype: Subtype, bit: nat)
    requires bit < 33 && GlobalOwner(subtype, bit).Some?
    ensures Covers(GlobalLayout(subtype, GlobalOwner(subtype, bit).value), bit)
  {
  }

  lemma GlobalCovers33(subtype: Subtype, bit: nat)
    requires 33 <= bit < 71 && GlobalOwner(subtype, bit).Some?
    ensures Covers(GlobalLayout(subtype, GlobalOwner(subtype, bit).value), bit)
  {
  }

  lemma GlobalCovers71(subtype: Subtype, bit: nat)
    requires 71 <= bit < 104 && GlobalOwner(subtype, bit).Some?
    ensures Covers(GlobalLayout(subtype, GlobalOwner(subtype, bit).value), bit)
  {
  }

  lemma GlobalCovers104(subtype: Subtype, bit: nat)
    requires 104 <= bit < 135 && GlobalOwner(subtype, bit).Some?
    ensures Covers(GlobalLayout(subtype, GlobalOwner(subtype, bit).value), bit)
  {
  }

  lemma GlobalCovers135(subtype: Subtype, bit: nat)
    requires 135 <= bit < 158 && GlobalOwner(subtype, bit).Some?
    ensures Covers(GlobalLayout(subtype, GlobalOwner(subtype, bit).value), bit)
  {
  }

  lemma GlobalCovers158(subtype: Subtype, bit: nat)
    requires 158 <= bit < 175 && GlobalOwner(subtype, bit).Some?
    ensures Covers(GlobalLayout(subtype, GlobalOwner(subtype, bit).value), bit)
  {
  }

  lemma GlobalCovers175(subtype: Subtype, bit: nat)
    requires 175 <= bit && GlobalOwner(subtype, bit).Some?
    ensures Covers(GlobalLayout(subtype, GlobalOwner(subtype, bit).value), bit)
  {
  }

  lemma ChannelCovers0(subtype: Subtype, bit: nat)
    requires bit < 33 && ChannelOwner(subtype, bit).Some?
    ensures Covers(ChannelLayout(subtype, ChannelOwner(subtype, bit).value), bit)
  {
  }

  lemma ChannelCovers33(subtype: Subtype, bit: nat)
    requires 33 <= bit < 63 && ChannelOwner(subtype, bit).Some?
    ensures Covers(ChannelLayout(subtype, ChannelOwner(subtype, bit).value), bit)
  {
  }

  lemma ChannelCovers63(subtype: Subtype, bit: nat)
    requires 63 <= bit < 89 && ChannelOwner(subtype, bit).Some?
    ensures Covers(ChannelLayout(subtype, ChannelOwner(subtype, bit).value), bit)
  {
  }

  lemma ChannelCovers89(subtype: Subtype, bit: nat)
    requires 89 <= bit < 110 && ChannelOwner(subtype, bit).Some?
    ensures Covers(ChannelLayout(subtype, ChannelOwner(subtype, bit).value), bit)
  {
  }

  lemma ChannelCovers110(subtype: Subtype, bit: nat)
    requires 110 <= bit && ChannelOwner(subtype, bit).Some?
    ensures Covers(ChannelLayout(subtype, ChannelOwner(subtype, bit).value), bit)
  {
  }

  /** and a bit that belongs to a field is one of its bits. */
  lemma OwnedBitsAreListed(subtype: Subtype, f: Field, bit: nat)
    requires Owns(subtype, f, bit)
    ensures bit in Index(subtype, f)
  {
    if f.Global? {
      if bit < 33 { GlobalCovers0(subtype, bit); }
      else if bit < 71 { GlobalCovers33(subtype, bit); }
      else if bit < 104 { GlobalCovers71(subtype, bit); }
      else if bit < 135 { GlobalCovers104(subtype, bit); }
      else if bit < 158 { GlobalCovers135(subtype, bit); }
      else if bit < 175 { GlobalCovers158(subtype, bit); }
      else { GlobalCovers175(subtype, bit); }
    } else {
      if bit < 33 { ChannelCovers0(subtype, bit); }
      else if bit < 63 { ChannelCovers33(subtype, bit); }
      else if bit < 89 { ChannelCovers63(subtype, bit); }
      else if bit < 110 { ChannelCovers89(subtype, bit); }
      else { ChannelCovers110(subtype, bit); }
    }
    CoversExpanded(LayoutOf(subtype, f), bit);
  }

  // ---------- The order of the bits ----------

  /** The fields whose bits are listed one by one. */
  predicate Irregular(subtype: Subtype, f: Field) {
    f == Global(FeIb2) || f == Channel(FeDelay) || (f == Channel(BaselineE) && subtype == Tofpet2C)
  }

  /** The bits of all other fields follow each other. In the global register the digital settings, below bit 31, have
      their most significant digit in the highest bit, and the bias settings in the lowest; in a channel register it is
      in the highest bit for all but the two gains. */
  lemma BitOrder(subtype: Subtype, f: Field, a: nat, b: nat)
    requires a < b < |Index(subtype, f)| && !Irregular(subtype, f)
    ensures var high, low := Index(subtype, f)[a], Index(subtype, f)[b];
      if (if f.Global? then low < 31 else f.c != PostampGainT && f.c != PostampGainE) then high == low + (b - a)
      else low == high + (b - a)
  {
    if f.Global? { GlobalOrder(subtype, f.g); } else { ChannelOrder(subtype, f.c); }
    hide GlobalLayout, ChannelLayout;
  }

  lemma GlobalOrder(subtype: Subtype, g: GlobalField)
    ensures g != FeIb2 ==> match GlobalLayout(subtype, g)
      case Down(_, last) => last <= 31
      case Up(first, _) => first >= 31
      case Listed(bits) => |bits| == 1
      case Absent => true
  {
  }

  lemma ChannelOrder(subtype: Subtype, c: ChannelField)
    ensures c != FeDelay && (c != BaselineE || subtype == Tofpet2B) ==>
      if c == PostampGainT || c == PostampGainE then ChannelLayout(subtype, c).Up? else ChannelLayout(subtype, c).Down?
  {
  }

  /** The bits of the others, most significant first. */
  lemma IrregularOrder(subtype: Subtype)
    ensures Index(Tofpet2B, Global(FeIb2)) == [134, 104, 105, 106, 107, 108]
    ensures Index(Tofpet2C, Global(FeIb2)) == [134, 176, 104, 105, 106, 107, 108]
    ensures Index(subtype, Channel(FeDelay)) == [84, 88, 87, 85, 86]
    ensures Index(Tofpet2C, Channel(BaselineE)) == [82, 83, 81]
  {
  }
}
