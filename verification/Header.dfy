/**
 * The query mutator's header edits (dns_util.cc, mutator.cc): bit operations on the third and
 * fourth octet of a DNS message, driven by an unordered map of options, against the
 * header they mean (section 4.1.1 of RFC 1035).
 */
module Header {
  import opened Common

  const DNS_OPCODE: bv32 := 0x1
  const DNS_AA: bv32 := 0x2
  const DNS_TC: bv32 := 0x4
  const DNS_RD: bv32 := 0x8
  const DNS_RA: bv32 := 0x10
  const DNS_Z: bv32 := 0x20
  const DNS_AD: bv32 := 0x40
  const DNS_CD: bv32 := 0x80
  const EDNS_DO: bv32 := 0x100
  const EDNS_UDP_SIZE: bv32 := 0x200
  const EDNS_EXTENDED_RCODE: bv32 := 0x400
  const EDNS_VERSION: bv32 := 0x800
  const EDNS_Z: bv32 := 0x1000

  // ---- The header as fields ----

  datatype Flags = Flags(qr: bool, opcode: bv8, aa: bool, tc: bool, rd: bool,
                         ra: bool, z: bool, ad: bool, cd: bool, rcode: bv8)

  function OpcodeOf(b2: bv8): bv8 { (b2 >> 3) & 0xF }

  function FlagsOf(b2: bv8, b3: bv8): Flags {
    Flags(b2 & 0x80 != 0, OpcodeOf(b2), b2 & 0x04 != 0, b2 & 0x02 != 0, b2 & 0x01 != 0,
          b3 & 0x80 != 0, b3 & 0x40 != 0, b3 & 0x20 != 0, b3 & 0x10 != 0, b3 & 0x0F)
  }

  function Bit(on: bool, mask: bv8): bv8 { if on then mask else 0 }

  datatype Octets = Octets(b2: bv8, b3: bv8)

  function OctetsOf(f: Flags): Octets {
    Octets(Bit(f.qr, 0x80) | (f.opcode << 3) | Bit(f.aa, 0x04) | Bit(f.tc, 0x02) | Bit(f.rd, 0x01),
           Bit(f.ra, 0x80) | Bit(f.z, 0x40) | Bit(f.ad, 0x20) | Bit(f.cd, 0x10) | f.rcode)
  }

  /** The fields are the whole of both octets, and fields of the right width survive them. */
  lemma FlagsAreOctets(b2: bv8, b3: bv8)
    ensures OctetsOf(FlagsOf(b2, b3)) == Octets(b2, b3)
  {
  }

  // ---- One edit ----

  // The low octet of a 32-bit value.
  function Octet(v: bv32): bv8 { (v & 0xFF) as bv8 }

  function SetOpcode(b: bv8, val: bv32): bv8 { (b & 0x87) | Octet(val << 3) }

  function SetBit(b: bv8, mask: bv8, val: bv32): bv8 {
    if val == 0 then b & !mask else b | mask
  }

  predicate IsHeaderPart(part: bv32) {
    InSecondOctet(part) || part == DNS_RA || part == DNS_Z || part == DNS_AD || part == DNS_CD
  }

  predicate InSecondOctet(part: bv32) {
    part == DNS_OPCODE || part == DNS_AA || part == DNS_TC || part == DNS_RD
  }

  function EditSecond(b: bv8, part: bv32, val: bv32): bv8
    requires InSecondOctet(part)
  {
    if part == DNS_OPCODE then SetOpcode(b, val)
    else if part == DNS_AA then SetBit(b, 0x04, val)
    else if part == DNS_TC then SetBit(b, 0x02, val)
    else SetBit(b, 0x01, val)
  }

  function EditThird(b: bv8, part: bv32, val: bv32): bv8
    requires IsHeaderPart(part) && !InSecondOctet(part)
  {
    if part == DNS_RA then SetBit(b, 0x80, val)
    else if part == DNS_Z then SetBit(b, 0x40, val)
    else if part == DNS_AD then SetBit(b, 0x20, val)
    else SetBit(b, 0x10, val)
  }

  function Edited(h: Octets, part: bv32, val: bv32): Octets
    requires IsHeaderPart(part)
  {
    if InSecondOctet(part) then h.(b2 := EditSecond(h.b2, part, val)) else h.(b3 := EditThird(h.b3, part, val))
  }

  // The opcode field has four bits; the macro lets the fifth bit of the value into QR.
  predicate SpillsIntoQr(val: bv32) { val & 0x10 != 0 }

  // What the edit means for the fields.
  function Updated(f: Flags, part: bv32, val: bv32): Flags {
    if part == DNS_OPCODE then f.(opcode := Octet(val & 0xF), qr := f.qr || SpillsIntoQr(val))
    else if part == DNS_AA then f.(aa := val != 0)
    else if part == DNS_TC then f.(tc := val != 0)
    else if part == DNS_RD then f.(rd := val != 0)
    else if part == DNS_RA then f.(ra := val != 0)
    else if part == DNS_Z then f.(z := val != 0)
    else if part == DNS_AD then f.(ad := val != 0)
    else if part == DNS_CD then f.(cd := val != 0)
    else f
  }

  lemma OpcodeEdit(b: bv8, val: bv32)
    ensures var r := SetOpcode(b, val);
            && OpcodeOf(r) == Octet(val & 0xF)
            && (r & 0x80 != 0 <==> b & 0x80 != 0 || val & 0x10 != 0)
            && r & 0x07 == b & 0x07
  {
  }

  lemma LowBits(a: bv8, b: bv8)
    requires a & 0x07 == b & 0x07
    ensures a & 0x04 == b & 0x04 && a & 0x02 == b & 0x02 && a & 0x01 == b & 0x01
  {
    assert a & 0x04 == (a & 0x07) & 0x04 && a & 0x02 == (a & 0x07) & 0x02 && a & 0x01 == (a & 0x07) & 0x01;
    assert b & 0x04 == (b & 0x07) & 0x04 && b & 0x02 == (b & 0x07) & 0x02 && b & 0x01 == (b & 0x07) & 0x01;
  }

  // Setting or clearing one bit leaves the other bits alone.
  lemma BitEdit(b: bv8, mask: bv8, val: bv32, other: bv8)
    requires mask & other == 0
    ensures SetBit(b, mask, val) & other == b & other
    ensures SetBit(b, mask, val) & mask == if val == 0 then 0 else mask
  {
    assert (b | mask) & other == (b & other) | (mask & other);
    assert (b & !mask) & other == (b & other) & !mask;
    assert (b & !mask) & other == b & (other & !mask);
    assert other & !mask == other by {
      assert other == (other & mask) | (other & !mask);
    }
  }

  /** The bit operations do what the field update says, and touch no other field. */
  lemma EditMeansUpdate(h: Octets, part: bv32, val: bv32)
    requires IsHeaderPart(part)
    ensures var r := Edited(h, part, val);
            FlagsOf(r.b2, r.b3) == Updated(FlagsOf(h.b2, h.b3), part, val)
  {
    if InSecondOctet(part) {
      SecondOctet(h.b2, h.b3, part, val);
    } else {
      ThirdOctet(h.b2, h.b3, part, val);
    }
  }

  lemma SecondOctet(b2: bv8, b3: bv8, part: bv32, val: bv32)
    requires InSecondOctet(part)
    ensures FlagsOf(EditSecond(b2, part, val), b3) == Updated(FlagsOf(b2, b3), part, val)
  {
    hide SetOpcode, SetBit, Octet, OpcodeOf;
    if part == DNS_OPCODE {
      OpcodeOctet(b2, b3, val);
    } else if part == DNS_AA {
      BitEdit(b2, 0x04, val, 0x80);
      BitEdit(b2, 0x04, val, 0x78);
      BitEdit(b2, 0x04, val, 0x02);
      BitEdit(b2, 0x04, val, 0x01);
    } else if part == DNS_TC {
      BitEdit(b2, 0x02, val, 0x80);
      BitEdit(b2, 0x02, val, 0x78);
      BitEdit(b2, 0x02, val, 0x04);
      BitEdit(b2, 0x02, val, 0x01);
    } else {
      BitEdit(b2, 0x01, val, 0x80);
      BitEdit(b2, 0x01, val, 0x78);
      BitEdit(b2, 0x01, val, 0x04);
      BitEdit(b2, 0x01, val, 0x02);
    }
    SameOpcode(b2, EditSecond(b2, part, val));
  }

  lemma OpcodeOctet(b2: bv8, b3: bv8, val: bv32)
    ensures FlagsOf(SetOpcode(b2, val), b3) == Updated(FlagsOf(b2, b3), DNS_OPCODE, val)
  {
    hide SetOpcode, Octet, OpcodeOf;
    OpcodeEdit(b2, val);
    LowBits(SetOpcode(b2, val), b2);
  }

  lemma SameOpcode(a: bv8, b: bv8)
    ensures a & 0x78 == b & 0x78 ==> OpcodeOf(a) == OpcodeOf(b)
  {
    assert OpcodeOf(a) == (a & 0x78) >> 3 && OpcodeOf(b) == (b & 0x78) >> 3;
  }

  lemma ThirdOctet(b2: bv8, b3: bv8, part: bv32, val: bv32)
    requires IsHeaderPart(part) && !InSecondOctet(part)
    ensures FlagsOf(b2, EditThird(b3, part, val)) == Updated(FlagsOf(b2, b3), part, val)
  {
    hide SetBit, OpcodeOf;
    if part == DNS_RA {
      BitEdit(b3, 0x80, val, 0x40);
      BitEdit(b3, 0x80, val, 0x20);
      BitEdit(b3, 0x80, val, 0x10);
      BitEdit(b3, 0x80, val, 0x0F);
    } else if part == DNS_Z {
      BitEdit(b3, 0x40, val, 0x80);
      BitEdit(b3, 0x40, val, 0x20);
      BitEdit(b3, 0x40, val, 0x10);
      BitEdit(b3, 0x40, val, 0x0F);
    } else if part == DNS_AD {
      BitEdit(b3, 0x20, val, 0x80);
      BitEdit(b3, 0x20, val, 0x40);
      BitEdit(b3, 0x20, val, 0x10);
      BitEdit(b3, 0x20, val, 0x0F);
    } else {
      BitEdit(b3, 0x10, val, 0x80);
      BitEdit(b3, 0x10, val, 0x40);
      BitEdit(b3, 0x10, val, 0x20);
      BitEdit(b3, 0x10, val, 0x0F);
    }
  }

  // ---- All options at once ----

  // A 32-bit word, as key or value of the option map.
  datatype U32 = U32(bits: bv32)

  type Options = map<U32, U32>

  function Chosen(opts: Options, part: bv32, otherwise: bool): bool {
    if U32(part) in opts then opts[U32(part)].bits != 0 else otherwise
  }

  // Field by field, with no order among the options.
  function Combined(f: Flags, opts: Options): Flags {
    Flags(
      f.qr || (U32(DNS_OPCODE) in opts && SpillsIntoQr(opts[U32(DNS_OPCODE)].bits)),
      if U32(DNS_OPCODE) in opts then Octet(opts[U32(DNS_OPCODE)].bits & 0xF) else f.opcode,
      Chosen(opts, DNS_AA, f.aa),
      Chosen(opts, DNS_TC, f.tc),
      Chosen(opts, DNS_RD, f.rd),
      Chosen(opts, DNS_RA, f.ra),
      Chosen(opts, DNS_Z, f.z),
      Chosen(opts, DNS_AD, f.ad),
      Chosen(opts, DNS_CD, f.cd),
      f.rcode)
  }

  lemma ChosenOneMore(opts: Options, part: bv32, val: bv32, q: bv32, otherwise: bool)
    ensures Chosen(opts[U32(part) := U32(val)], q, otherwise)
         == if q == part then val != 0 else Chosen(opts, q, otherwise)
  {
  }

  lemma CombinedOneMore(f: Flags, opts: Options, part: bv32, val: bv32)
    requires U32(part) !in opts
    ensures Combined(f, opts[U32(part) := U32(val)]) == Updated(Combined(f, opts), part, val)
  {
    hide Octet, SpillsIntoQr, Chosen;
    ChosenOneMore(opts, part, val, DNS_AA, f.aa);
    ChosenOneMore(opts, part, val, DNS_TC, f.tc);
    ChosenOneMore(opts, part, val, DNS_RD, f.rd);
    ChosenOneMore(opts, part, val, DNS_RA, f.ra);
    ChosenOneMore(opts, part, val, DNS_Z, f.z);
    ChosenOneMore(opts, part, val, DNS_AD, f.ad);
    ChosenOneMore(opts, part, val, DNS_CD, f.cd);
  }

  predicate PowerOfTwo(part: bv32) { part & (part - 1) == 0 }

  // valid_option, on the two ranges that matter.
  predicate IsEdnsOption(part: bv32) {
    EDNS_DO <= part <= EDNS_Z && PowerOfTwo(part)
  }

  predicate IsHeaderOption(part: bv32) {
    DNS_OPCODE <= part <= DNS_CD && PowerOfTwo(part)
  }

  lemma HeaderOptions(part: bv32)
    ensures IsHeaderOption(part) <==> IsHeaderPart(part)
  {
    if part < 0x100 {
      var p := part as bv8;
      assert part == p as bv32;
    }
  }

  datatype Outcome =
    | Changed(raw: seq<bv8>)                                 // header edits alone
    | NeedsEdns(header: seq<bv8>, edns: Options)     // the rest is left to the packet library
    | Overrun                                        // an octet beyond the message is changed

  // The options that `keep` selects.
  function Only(opts: Options, keep: bv32 -> bool): Options {
    map p | p in opts && keep(p.bits) :: opts[p]
  }

  // How long a message must be to have the octet that an option changes.
  function Reach(part: bv32): nat { if InSecondOctet(part) then 3 else 4 }

  // Both flag octets, zero for a missing one.
  function OctetsIn(s: seq<bv8>): Octets {
    Octets(if |s| > 2 then s[2] else 0, if |s| > 3 then s[3] else 0)
  }

  datatype Edit = Done | Unsupported | Overran

  method ChangeHeader(buf: array<bv8>, part: bv32, val: bv32) returns (r: Edit)
    modifies buf
    ensures r.Unsupported? <==> !IsHeaderPart(part)
    ensures r.Overran? <==> IsHeaderPart(part) && buf.Length < Reach(part)
    ensures forall i :: 0 <= i < buf.Length && i != 2 && i != 3 ==> buf[i] == old(buf[i])
    ensures OctetsIn(buf[..]) == if r.Done? then Edited(OctetsIn(old(buf[..])), part, val) else OctetsIn(old(buf[..]))
  {
    if IsHeaderPart(part) && buf.Length < Reach(part) { return Overran; }
    if part == DNS_OPCODE { buf[2] := SetOpcode(buf[2], val); }
    else if part == DNS_AA { buf[2] := SetBit(buf[2], 0x04, val); }
    else if part == DNS_TC { buf[2] := SetBit(buf[2], 0x02, val); }
    else if part == DNS_RD { buf[2] := SetBit(buf[2], 0x01, val); }
    else if part == DNS_RA { buf[3] := SetBit(buf[3], 0x80, val); }
    else if part == DNS_Z { buf[3] := SetBit(buf[3], 0x40, val); }
    else if part == DNS_AD { buf[3] := SetBit(buf[3], 0x20, val); }
    else if part == DNS_CD { buf[3] := SetBit(buf[3], 0x10, val); }
    else { return Unsupported; }
    return Done;
  }

  // `raw` with its flag octets replaced by the combination of all options.
  function Mutated(raw: seq<bv8>, opts: Options): (r: seq<bv8>)
    ensures |r| == |raw|
    ensures forall i :: 0 <= i < |raw| && i != 2 && i != 3 ==> r[i] == raw[i]
  {
    if |raw| < 3 then raw
    else
      var o := OctetsOf(Combined(FlagsIn(raw), opts));
      if |raw| == 3 then raw[2 := o.b2] else raw[2 := o.b2][3 := o.b3]
  }

  function FlagsIn(raw: seq<bv8>): Flags {
    FlagsOf(OctetsIn(raw).b2, OctetsIn(raw).b3)
  }

  // Some option changes an octet that the message does not have.
  predicate Overruns(raw: seq<bv8>, opts: Options) {
    exists p :: p in opts && IsHeaderPart(p.bits) && |raw| < Reach(p.bits)
  }

  lemma CombinedNone(f: Flags)
    ensures Combined(f, map[]) == f
  {
  }

  // Options that are no header part leave the flags alone.
  lemma CombinedOther(f: Flags, part: bv32, val: bv32)
    requires !IsHeaderPart(part)
    ensures Updated(f, part, val) == f
  {
  }

  /**
   * change_dns_pkt: the options are applied one by one in an order that the map does not
   * promise; the result does not depend on it.
   */
  method ChangeDnsPkt(old': seq<bv8>, opts: Options) returns (out: Outcome)
    requires |old'| > 0
    ensures out.Overrun? <==> Overruns(old', opts)
    ensures out.Changed? ==> Only(opts, IsEdnsOption) == map[] && out.raw == Mutated(old', opts)
    ensures out.NeedsEdns? ==> out.edns == Only(opts, IsEdnsOption) != map[] && out.header == Mutated(old', opts)
  {
    hide Combined, FlagsOf, OctetsOf, Updated, Edited, IsHeaderPart, IsHeaderOption, IsEdnsOption, OctetsIn, Reach;
    var buf := new bv8[|old'|](i requires 0 <= i < |old'| => old'[i]);
    assert buf[..] == old';
    var edns: Options := map[];
    var left := opts.Keys;
    ghost var f := FlagsIn(old');
    assert opts - left == map[];
    CombinedNone(f);
    while left != {}
      invariant left <= opts.Keys
      invariant edns == Only(opts - left, IsEdnsOption)
      invariant forall i :: 0 <= i < |old'| && i != 2 && i != 3 ==> buf[i] == old'[i]
      invariant FlagsIn(buf[..]) == Combined(f, opts - left)
      invariant forall p :: p in opts.Keys - left && IsHeaderPart(p.bits) ==> |old'| >= Reach(p.bits)
      decreases left
    {
      var p := AnyOf(left);
      var part, val := p.bits, opts[p].bits;
      HeaderOptions(part);
      DisjointOptions(part);
      assert (opts - left)[U32(part) := U32(val)] == opts - (left - {p});
      CombinedOneMore(f, opts - left, part, val);
      OnlyOneMore(opts - left, IsEdnsOption, p, U32(val));
      if IsEdnsOption(part) {
        edns := edns[p := U32(val)];
        CombinedOther(Combined(f, opts - left), part, val);
      } else if IsHeaderOption(part) {
        EditMeansUpdate(OctetsIn(buf[..]), part, val);
        var edit := ChangeHeader(buf, part, val);
        if edit.Overran? { return Overrun; }
      } else {
        CombinedOther(Combined(f, opts - left), part, val);
      }
      left := left - {p};
    }
    assert opts - left == opts;
    MutatedFromFlags(old', buf[..], opts);
    if edns == map[] {
      out := Changed(buf[..]);
    } else {
      out := NeedsEdns(buf[..], edns);
    }
  }

  lemma MutatedFromFlags(raw: seq<bv8>, r: seq<bv8>, opts: Options)
    requires |r| == |raw| && (forall i :: 0 <= i < |raw| && i != 2 && i != 3 ==> r[i] == raw[i])
    requires FlagsIn(r) == Combined(FlagsIn(raw), opts)
    ensures r == Mutated(raw, opts)
  {
    hide FlagsOf, OctetsOf, Combined;
    FlagsAreOctets(OctetsIn(r).b2, OctetsIn(r).b3);
  }

  lemma DisjointOptions(part: bv32)
    ensures !(IsEdnsOption(part) && IsHeaderOption(part))
  {
  }

  lemma OnlyOneMore(opts: Options, keep: bv32 -> bool, p: U32, v: U32)
    requires p !in opts
    ensures Only(opts[p := v], keep) == if keep(p.bits) then Only(opts, keep)[p := v] else Only(opts, keep)
  {
  }

  // ---- Queries stay queries ----

  /** The QR bit, read as the top bit of a 16-bit word in network order; none when the
      message is too short to have that word. */
  function IsQuery(buf: seq<bv8>, tcp: bool): (r: Option<bool>)
    ensures r.None? <==> |buf| < if tcp then 6 else 4
    ensures r.Some? ==> (r.value <==> buf[if tcp then 4 else 2] & 0x80 == 0)
  {
    var offset := if tcp then 4 else 2;
    if |buf| < offset + 2 then None
    else
      var bits := ((buf[offset] as bv16) << 8) | (buf[offset + 1] as bv16);
      TopBit(buf[offset], buf[offset + 1]);
      Some(0x8000 & bits == 0)
  }

  lemma TopBit(h: bv8, l: bv8)
    ensures 0x8000 & (((h as bv16) << 8) | (l as bv16)) == 0 <==> h & 0x80 == 0
  {
  }

  // Flags that fit their fields come back from the octets.
  lemma OctetsAreFlags(f: Flags)
    requires f.opcode & 0xF0 == 0 && f.rcode & 0xF0 == 0
    ensures FlagsOf(OctetsOf(f).b2, OctetsOf(f).b3) == f
  {
  }

  lemma CombinedFits(b2: bv8, b3: bv8, opts: Options)
    ensures var f := Combined(FlagsOf(b2, b3), opts); f.opcode & 0xF0 == 0 && f.rcode & 0xF0 == 0
  {
  }

  // The fields of the first flag octet do not depend on the second.
  predicate SameFirst(f: Flags, g: Flags) {
    f.qr == g.qr && f.opcode == g.opcode && f.aa == g.aa && f.tc == g.tc && f.rd == g.rd
  }

  lemma MutatedFlags(raw: seq<bv8>, opts: Options)
    requires |raw| >= 3
    ensures var f, g := FlagsIn(Mutated(raw, opts)), Combined(FlagsIn(raw), opts);
            if |raw| == 3 then SameFirst(f, g) else f == g
  {
    hide OctetsOf, Combined;
    var o := OctetsIn(raw);
    CombinedFits(o.b2, o.b3, opts);
    OctetsAreFlags(Combined(FlagsIn(raw), opts));
  }

  /** A query stays one exactly when the chosen opcode, if any, has its fifth bit clear. */
  lemma QueryStaysQueryIff(raw: seq<bv8>, opts: Options)
    requires IsQuery(raw, false) == Some(true)
    ensures IsQuery(Mutated(raw, opts), false) == Some(true) <==>
              !(U32(DNS_OPCODE) in opts && opts[U32(DNS_OPCODE)].bits & 0x10 != 0)
  {
    hide Chosen, Octet, Mutated;
    MutatedFlags(raw, opts);
  }

  // ---- Choosing the options of one query ----

  datatype Wish = Wish(prob: int, val: bv32)

  predicate OneBit(part: bv32) {
    part & DNS_AA != 0 || part & DNS_TC != 0 || part & DNS_RD != 0 || part & DNS_RA != 0
    || part & DNS_Z != 0 || part & DNS_AD != 0 || part & DNS_CD != 0 || part & EDNS_DO != 0
  }

  predicate ManyBits(part: bv32) {
    part & DNS_OPCODE != 0 || part & EDNS_UDP_SIZE != 0 || part & EDNS_EXTENDED_RCODE != 0
    || part & EDNS_VERSION != 0 || part & EDNS_Z != 0
  }

  // A one-bit option gets its value or the opposite; a wider one its value or nothing.
  predicate Applies(part: bv32, w: Wish, draw: int) {
    OneBit(part) || (ManyBits(part) && draw <= w.prob)
  }

  function AppliedValue(part: bv32, w: Wish, draw: int): U32 {
    if OneBit(part) then U32(if (draw <= w.prob) == (w.val != 0) then 1 else 0) else U32(w.val)
  }

  function Applied(opt: map<U32, Wish>, draw: U32 -> int): Options {
    map p | p in opt && Applies(p.bits, opt[p], draw(p)) :: AppliedValue(p.bits, opt[p], draw(p))
  }

  /** mutate_query up to the call of change_dns_pkt; `draw` is rand() % 100 + 1. */
  method ChooseOptions(opt: map<U32, Wish>, draw: U32 -> int) returns (applied: Options)
    ensures applied == Applied(opt, draw)
  {
    hide OneBit, ManyBits;
    applied := map[];
    var left := opt.Keys;
    assert opt - left == map[];
    while left != {}
      invariant left <= opt.Keys
      invariant applied == Applied(opt - left, draw)
      decreases left
    {
      var p := AnyOf(left);
      var part, val, prob := p.bits, opt[p].val, opt[p].prob;
      var doChange := draw(p) <= prob;
      assert (opt - left)[p := opt[p]] == opt - (left - {p});
      AppliedOneMore(opt - left, draw, p, opt[p]);
      if OneBit(part) {
        if doChange {
          applied := applied[p := U32(if val != 0 then 1 else 0)];
        } else {
          applied := applied[p := U32(if val != 0 then 0 else 1)];
        }
      } else if ManyBits(part) {
        if doChange {
          applied := applied[p := U32(val)];
        }
      }
      left := left - {p};
    }
    assert opt - left == opt;
  }

  lemma AppliedOneMore(opt: map<U32, Wish>, draw: U32 -> int, p: U32, w: Wish)
    requires p !in opt
    ensures Applied(opt[p := w], draw) ==
      if Applies(p.bits, w, draw(p)) then Applied(opt, draw)[p := AppliedValue(p.bits, w, draw(p))]
      else Applied(opt, draw)
  {
    hide Applies, AppliedValue;
  }

  // The flag that a wish and a draw lead to.
  predicate Wished(opt: map<U32, Wish>, draw: U32 -> int, part: bv32, otherwise: bool) {
    if U32(part) in opt then (draw(U32(part)) <= opt[U32(part)].prob) == (opt[U32(part)].val != 0) else otherwise
  }

  /**
   * The mutation of one query, whatever the iteration orders: each wished flag has its value if
   * the draw is within its probability and the opposite otherwise; the opcode is set
   * only within its probability; everything else is as in the original.
   */
  lemma MutationMeans(raw: seq<bv8>, opt: map<U32, Wish>, draw: U32 -> int)
    requires |raw| >= 3
    ensures var f, g := FlagsIn(raw), FlagsIn(Mutated(raw, Applied(opt, draw)));
            && g.aa == Wished(opt, draw, DNS_AA, f.aa)
            && g.tc == Wished(opt, draw, DNS_TC, f.tc)
            && g.rd == Wished(opt, draw, DNS_RD, f.rd)
            && (|raw| > 3 ==>
                  && g.ra == Wished(opt, draw, DNS_RA, f.ra)
                  && g.z == Wished(opt, draw, DNS_Z, f.z)
                  && g.ad == Wished(opt, draw, DNS_AD, f.ad)
                  && g.cd == Wished(opt, draw, DNS_CD, f.cd)
                  && g.rcode == f.rcode)
            && var o := U32(DNS_OPCODE);
               if o in opt && draw(o) <= opt[o].prob
               then g.opcode == Octet(opt[o].val & 0xF) && g.qr == (f.qr || opt[o].val & 0x10 != 0)
               else g.opcode == f.opcode && g.qr == f.qr
  {
    hide FlagsIn, Mutated, Applied, Wished, Octet, Combined;
    MutatedFlags(raw, Applied(opt, draw));
    CombinedApplied(FlagsIn(raw), opt, draw);
  }

  lemma CombinedApplied(f: Flags, opt: map<U32, Wish>, draw: U32 -> int)
    ensures var g := Combined(f, Applied(opt, draw));
            && g.aa == Wished(opt, draw, DNS_AA, f.aa) && g.tc == Wished(opt, draw, DNS_TC, f.tc)
            && g.rd == Wished(opt, draw, DNS_RD, f.rd) && g.ra == Wished(opt, draw, DNS_RA, f.ra)
            && g.z == Wished(opt, draw, DNS_Z, f.z) && g.ad == Wished(opt, draw, DNS_AD, f.ad)
            && g.cd == Wished(opt, draw, DNS_CD, f.cd) && g.rcode == f.rcode
            && var o := U32(DNS_OPCODE);
               if o in opt && draw(o) <= opt[o].prob
               then g.opcode == Octet(opt[o].val & 0xF) && g.qr == (f.qr || opt[o].val & 0x10 != 0)
               else g.opcode == f.opcode && g.qr == f.qr
  {
    hide Applied, Chosen, Wished, Octet, OneBit;
    FlagsAreOneBit();
    ChosenApplied(opt, draw, DNS_AA, f.aa);
    ChosenApplied(opt, draw, DNS_TC, f.tc);
    ChosenApplied(opt, draw, DNS_RD, f.rd);
    ChosenApplied(opt, draw, DNS_RA, f.ra);
    ChosenApplied(opt, draw, DNS_Z, f.z);
    ChosenApplied(opt, draw, DNS_AD, f.ad);
    ChosenApplied(opt, draw, DNS_CD, f.cd);
    OpcodeApplied(opt, draw);
  }

  /** The same on the octets, with the options by their numbers: bit for bit, what a mutated query has. */
  lemma FirstFlagBits(raw: seq<bv8>, opt: map<U32, Wish>, draw: U32 -> int)
    requires |raw| >= 3
    ensures var r := Mutated(raw, Applied(opt, draw));
            && (r[2] & 0x04 != 0 <==> if U32(0x2) in opt then (draw(U32(0x2)) <= opt[U32(0x2)].prob) == (opt[U32(0x2)].val != 0) else raw[2] & 0x04 != 0)
            && (r[2] & 0x02 != 0 <==> if U32(0x4) in opt then (draw(U32(0x4)) <= opt[U32(0x4)].prob) == (opt[U32(0x4)].val != 0) else raw[2] & 0x02 != 0)
            && (r[2] & 0x01 != 0 <==> if U32(0x8) in opt then (draw(U32(0x8)) <= opt[U32(0x8)].prob) == (opt[U32(0x8)].val != 0) else raw[2] & 0x01 != 0)
  {
    hide Mutated, Applied, Octet;
    MutationMeans(raw, opt, draw);
  }

  lemma SecondFlagBits(raw: seq<bv8>, opt: map<U32, Wish>, draw: U32 -> int)
    requires |raw| >= 4
    ensures var r := Mutated(raw, Applied(opt, draw));
            && (r[3] & 0x80 != 0 <==> if U32(0x10) in opt then (draw(U32(0x10)) <= opt[U32(0x10)].prob) == (opt[U32(0x10)].val != 0) else raw[3] & 0x80 != 0)
            && (r[3] & 0x40 != 0 <==> if U32(0x20) in opt then (draw(U32(0x20)) <= opt[U32(0x20)].prob) == (opt[U32(0x20)].val != 0) else raw[3] & 0x40 != 0)
            && (r[3] & 0x20 != 0 <==> if U32(0x40) in opt then (draw(U32(0x40)) <= opt[U32(0x40)].prob) == (opt[U32(0x40)].val != 0) else raw[3] & 0x20 != 0)
            && (r[3] & 0x10 != 0 <==> if U32(0x80) in opt then (draw(U32(0x80)) <= opt[U32(0x80)].prob) == (opt[U32(0x80)].val != 0) else raw[3] & 0x10 != 0)
            && r[3] & 0x0F == raw[3] & 0x0F
  {
    hide Mutated, Applied, Octet;
    MutationMeans(raw, opt, draw);
  }

  lemma OpcodeBits(raw: seq<bv8>, opt: map<U32, Wish>, draw: U32 -> int)
    requires |raw| >= 3
    ensures var r, o := Mutated(raw, Applied(opt, draw)), U32(0x1);
            if o in opt && draw(o) <= opt[o].prob
            then ((r[2] >> 3) & 0xF) as bv32 == opt[o].val & 0xF && (r[2] & 0x80 != 0 <==> raw[2] & 0x80 != 0 || opt[o].val & 0x10 != 0)
            else (r[2] >> 3) & 0xF == (raw[2] >> 3) & 0xF && (r[2] & 0x80 != 0 <==> raw[2] & 0x80 != 0)
  {
    hide Mutated, Applied, Octet;
    MutationMeans(raw, opt, draw);
    if U32(0x1) in opt { OctetKeeps(opt[U32(0x1)].val & 0xF); }
  }

  /** Which messages are too short, by the numbers of the options. */
  lemma OverrunsIff(raw: seq<bv8>, opts: Options)
    ensures Overruns(raw, opts) <==>
              || (|raw| < 3 && (U32(0x1) in opts || U32(0x2) in opts || U32(0x4) in opts || U32(0x8) in opts))
              || (|raw| < 4 && (U32(0x10) in opts || U32(0x20) in opts || U32(0x40) in opts || U32(0x80) in opts))
  {
    if Overruns(raw, opts) {
      var p :| p in opts && IsHeaderPart(p.bits) && |raw| < Reach(p.bits);
      assert p == U32(p.bits);
    } else {
      forall p | p in opts && IsHeaderPart(p.bits) ensures |raw| >= Reach(p.bits) { }
    }
  }

  lemma OctetKeeps(v: bv32)
    requires v <= 0xFF
    ensures Octet(v) as bv32 == v
  {
  }

  /** The five EDNS options, by their numbers: which of the chosen options are handed on, and with what
      value. No other is. */
  lemma EdnsHandedOn(opt: map<U32, Wish>, draw: U32 -> int, p: U32)
    ensures var edns := Only(Applied(opt, draw), IsEdnsOption);
            && (p in edns ==> p.bits == 0x100 || p.bits == 0x200 || p.bits == 0x400 || p.bits == 0x800 || p.bits == 0x1000)
            && (p.bits == 0x100 ==>
                  && (p in edns <==> p in opt)
                  && (p in edns ==> edns[p].bits == if (draw(p) <= opt[p].prob) == (opt[p].val != 0) then 1 else 0))
            && (p.bits == 0x200 || p.bits == 0x400 || p.bits == 0x800 || p.bits == 0x1000 ==>
                  && (p in edns <==> p in opt && draw(p) <= opt[p].prob)
                  && (p in edns ==> edns[p].bits == opt[p].val))
  {
    EdnsOptions(p.bits);
    EdnsWidths(p.bits);
    hide OneBit, ManyBits, IsEdnsOption;
  }

  lemma EdnsOptions(part: bv32)
    ensures IsEdnsOption(part) <==> part == 0x100 || part == 0x200 || part == 0x400 || part == 0x800 || part == 0x1000
  {
    TopBitStays(part, 0x100);
    TopBitStays(part, 0x200);
    TopBitStays(part, 0x400);
    TopBitStays(part, 0x800);
  }

  /** Strictly between a power of two and the next, a number and its predecessor share the top bit. */
  lemma TopBitStays(part: bv32, top: bv32)
    requires top == 0x100 || top == 0x200 || top == 0x400 || top == 0x800
    ensures top < part < 2 * top ==> !PowerOfTwo(part)
  {
    if top < part < 2 * top {
      assert part & (part - 1) & top == top;
    }
  }

  lemma EdnsWidths(part: bv32)
    ensures part == 0x100 ==> OneBit(part)
    ensures part == 0x200 || part == 0x400 || part == 0x800 || part == 0x1000 ==> !OneBit(part) && ManyBits(part)
  {
  }

  lemma FlagsAreOneBit()
    ensures OneBit(DNS_AA) && OneBit(DNS_TC) && OneBit(DNS_RD) && OneBit(DNS_RA)
    ensures OneBit(DNS_Z) && OneBit(DNS_AD) && OneBit(DNS_CD)
  {
  }

  lemma ChosenApplied(opt: map<U32, Wish>, draw: U32 -> int, part: bv32, otherwise: bool)
    requires OneBit(part)
    ensures Chosen(Applied(opt, draw), part, otherwise) == Wished(opt, draw, part, otherwise)
  {
    hide OneBit, ManyBits;
  }

  lemma OpcodeApplied(opt: map<U32, Wish>, draw: U32 -> int)
    ensures var o := U32(DNS_OPCODE);
            && (o in Applied(opt, draw) <==> o in opt && draw(o) <= opt[o].prob)
            && (o in Applied(opt, draw) ==> Applied(opt, draw)[o].bits == opt[o].val)
  {
  }
}
