/** Reading the type section of Linux BPF Type Format data, and the proof that it inverts the format's encoding. */
module BtfFormat {
  import opened Prelude
  import opened Reading

  type byte = x: int | 0 <= x < 256
  type u32 = x: int | 0 <= x < 0x1_0000_0000

  datatype Member = Member(nameOff: u32, typeId: u32, bitOffset: u32)

  datatype RawType = RawType(nameOff: u32, kind: nat, kflag: bool, sizeType: u32, members: seq<Member>)

  datatype Btf = Btf(strings: seq<byte>, types: seq<RawType>)

  datatype BtfError = TooShort | BadMagic(magic: nat) | OutOfBounds | UnknownKind(kind: nat, vlen: nat)

  const BTF_MAGIC := 0xEB9F
  const KIND_STRUCT := 4
  const KIND_UNION := 5

  function U16At(data: seq<byte>, pos: nat): (n: nat)
    requires pos + 2 <= |data|
  {
    var low: int, high: int := data[pos], data[pos + 1];
    low + 0x100 * high
  }

  function U32At(data: seq<byte>, pos: nat): (n: u32)
    requires pos + 4 <= |data|
  {
    var b0: int, b1: int, b2: int, b3: int := data[pos], data[pos + 1], data[pos + 2], data[pos + 3];
    b0 + 0x100 * b1 + 0x1_0000 * b2 + 0x100_0000 * b3
  }

  predicate HasMembers(kind: nat) {
    kind == KIND_STRUCT || kind == KIND_UNION
  }

  /** The data that follows a type of another kind than struct or union, or `None` for a kind that is not known. */
  function ExtraBytes(kind: nat, vlen: nat): (n: Option<nat>) {
    match kind
    case 1 => Some(4)
    case 3 => Some(12)
    case 6 => Some(vlen * 8)
    case 13 => Some(vlen * 8)
    case 14 => Some(4)
    case 15 => Some(vlen * 12)
    case 17 => Some(4)
    case 19 => Some(vlen * 12)
    case _ => if vlen > 0 && kind > 19 then None else Some(0)
  }

  /** `info` holds the kind in bits 24 to 28, the flag in bit 31 and the length in bits 0 to 15. */
  function KindOf(info: u32): (kind: nat) {
    info / 0x100_0000 % 32
  }

  function KflagOf(info: u32): (kflag: bool) {
    info / 0x8000_0000 % 2 != 0
  }

  function VlenOf(info: u32): (vlen: nat) {
    info % 0x1_0000
  }

  /** With the flag set, the upper 8 bits of a member's offset are a bit-field size. */
  function BitOffset(raw: u32, kflag: bool): (offset: u32) {
    if kflag then raw % 0x100_0000 else raw
  }

  function MemberAt(data: seq<byte>, pos: nat, kflag: bool): (m: Member)
    requires pos + 12 <= |data|
  {
    Member(U32At(data, pos), U32At(data, pos + 4), BitOffset(U32At(data, pos + 8), kflag))
  }

  /** Up to `count` members from `pos` on, as many as fit before `end`. */
  function ReadMembers(data: seq<byte>, pos: nat, end: nat, kflag: bool, count: nat): (members: seq<Member>)
    requires end <= |data|
    ensures |members| <= count && pos + 12 * |members| <= if pos <= end then end else pos
    decreases count
  {
    if count == 0 || pos + 12 > end then []
    else [MemberAt(data, pos, kflag)] + ReadMembers(data, pos + 12, end, kflag, count - 1)
  }

  /** A type and the position behind it. */
  datatype Entry = Entry(t: RawType, next: nat)

  function ReadType(data: seq<byte>, pos: nat, end: nat): (r: Result<Entry, BtfError>)
    requires pos + 12 <= end <= |data|
    ensures r.Ok? ==> r.value.next >= pos + 12
  {
    var info := U32At(data, pos + 4);
    var kind, kflag, vlen := KindOf(info), KflagOf(info), VlenOf(info);
    var members := if HasMembers(kind) then ReadMembers(data, pos + 12, end, kflag, vlen) else [];
    var extra := if HasMembers(kind) then Some(12 * |members|) else ExtraBytes(kind, vlen);
    match extra
    case None => Err(UnknownKind(kind, vlen))
    case Some(n) => Ok(Entry(RawType(U32At(data, pos), kind, kflag, U32At(data, pos + 8), members), pos + 12 + n))
  }

  function ReadTypes(data: seq<byte>, pos: nat, end: nat): (r: Result<seq<RawType>, BtfError>)
    requires end <= |data|
    decreases if pos <= end then end - pos else 0
  {
    if pos + 12 > end then Ok([])
    else
      match ReadType(data, pos, end)
      case Err(e) => Err(e)
      case Ok(entry) => AfterTypes([entry.t], ReadTypes(data, entry.next, end))
  }

  /** Reading on after the types in `done`. */
  function AfterTypes(done: seq<RawType>, rest: Result<seq<RawType>, BtfError>): (r: Result<seq<RawType>, BtfError>) {
    match rest
    case Err(e) => Err(e)
    case Ok(types) => Ok(done + types)
  }

  function TypeStart(data: seq<byte>): (n: nat)
    requires |data| >= 24
  {
    U32At(data, 4) + U32At(data, 8)
  }

  function StringStart(data: seq<byte>): (n: nat)
    requires |data| >= 24
  {
    U32At(data, 4) + U32At(data, 16)
  }

  function ParseBtf(data: seq<byte>): (r: Result<Btf, BtfError>) {
    if |data| < 24 then Err(TooShort)
    else if U16At(data, 0) != BTF_MAGIC then Err(BadMagic(U16At(data, 0)))
    else
      var typeEnd, stringEnd := TypeStart(data) + U32At(data, 12), StringStart(data) + U32At(data, 20);
      if stringEnd > |data| || typeEnd > |data| then Err(OutOfBounds)
      else
        match ReadTypes(data, TypeStart(data), typeEnd)
        case Err(e) => Err(e)
        case Ok(types) => Ok(Btf(data[StringStart(data)..stringEnd], types))
  }

  // ----- The reader as the program runs it -----

  method ReadMemberList(data: seq<byte>, start: nat, end: nat, kflag: bool, vlen: nat)
    returns (members: seq<Member>, pos: nat)
    requires start <= end <= |data|
    ensures members == ReadMembers(data, start, end, kflag, vlen)
    ensures pos == start + 12 * |members| <= end
  {
    hide MemberAt, ReadMembers;
    members, pos := [], start;
    var i := 0;
    while i < vlen
      invariant i <= vlen && pos == start + 12 * |members| <= end
      invariant members + ReadMembers(data, pos, end, kflag, vlen - i) == ReadMembers(data, start, end, kflag, vlen)
    {
      if pos + 12 > end { break; }
      MembersShift(members, data, pos, end, kflag, vlen - i);
      members := members + [MemberAt(data, pos, kflag)];
      pos := pos + 12;
      i := i + 1;
    }
    MembersEnd(members, data, pos, end, kflag, vlen - i);
  }

  lemma MembersShift(done: seq<Member>, data: seq<byte>, pos: nat, end: nat, kflag: bool, count: nat)
    requires pos + 12 <= end <= |data| && count > 0
    ensures done + ReadMembers(data, pos, end, kflag, count)
            == (done + [MemberAt(data, pos, kflag)]) + ReadMembers(data, pos + 12, end, kflag, count - 1)
  {
    hide MemberAt;
    Regroup(done, [MemberAt(data, pos, kflag)], ReadMembers(data, pos + 12, end, kflag, count - 1));
  }

  lemma MembersEnd(done: seq<Member>, data: seq<byte>, pos: nat, end: nat, kflag: bool, count: nat)
    requires end <= |data| && (count == 0 || pos + 12 > end)
    ensures done + ReadMembers(data, pos, end, kflag, count) == done
  {
    assert done + [] == done;
  }

  method Parse(data: seq<byte>) returns (r: Result<Btf, BtfError>)
    ensures r == ParseBtf(data)
  {
    if |data| < 24 { return Err(TooShort); }
    var magic := U16At(data, 0);
    if magic != BTF_MAGIC { return Err(BadMagic(magic)); }
    var typeStart, stringStart := TypeStart(data), StringStart(data);
    var typeEnd, stringEnd := typeStart + U32At(data, 12), stringStart + U32At(data, 20);
    if stringEnd > |data| || typeEnd > |data| { return Err(OutOfBounds); }
    var types := ParseTypes(data, typeStart, typeEnd);
    match types {
      case Err(e) => r := Err(e);
      case Ok(ts) => r := Ok(Btf(data[stringStart..stringEnd], ts));
    }
  }

  method ParseTypes(data: seq<byte>, start: nat, end: nat) returns (r: Result<seq<RawType>, BtfError>)
    requires start <= end <= |data|
    ensures r == ReadTypes(data, start, end)
  {
    var types: seq<RawType> := [];
    var pos := start;
    AfterNone(types, ReadTypes(data, start, end));
    while pos + 12 <= end
      invariant ReadTypes(data, start, end) == AfterTypes(types, ReadTypes(data, pos, end))
      decreases end - pos
    {
      var entry := ParseTypeAt(data, pos, end);
      if entry.Err? { return Err(entry.error); }
      var Entry(t, next) := entry.value;
      AfterOne(types, t, ReadTypes(data, next, end));
      types := types + [t];
      pos := next;
    }
    AfterNone(types, Ok([]));
    r := Ok(types);
  }

  /** The body of the loop over types. */
  method ParseTypeAt(data: seq<byte>, start: nat, end: nat) returns (r: Result<Entry, BtfError>)
    requires start + 12 <= end <= |data|
    ensures r == ReadType(data, start, end)
  {
    hide U32At, KindOf, KflagOf, VlenOf, ExtraBytes, ReadMembers;
    var pos := start;
    var nameOff, info, sizeType := U32At(data, pos), U32At(data, pos + 4), U32At(data, pos + 8);
    pos := pos + 12;
    var kind, kflag, vlen := KindOf(info), KflagOf(info), VlenOf(info);
    var members: seq<Member> := [];
    if kind == KIND_STRUCT || kind == KIND_UNION {
      members, pos := ReadMemberList(data, pos, end, kflag, vlen);
    } else {
      var extra := ExtraBytes(kind, vlen);
      if extra.None? { return Err(UnknownKind(kind, vlen)); }
      pos := pos + extra.value;
    }
    r := Ok(Entry(RawType(nameOff, kind, kflag, sizeType, members), pos));
  }

  lemma AfterNone(done: seq<RawType>, r: Result<seq<RawType>, BtfError>)
    ensures AfterTypes([], r) == r && AfterTypes(done, Ok([])) == Ok(done)
  {
    if r.Ok? { assert [] + r.value == r.value; }
    assert done + [] == done;
  }

  lemma AfterOne(done: seq<RawType>, t: RawType, rest: Result<seq<RawType>, BtfError>)
    ensures AfterTypes(done, AfterTypes([t], rest)) == AfterTypes(done + [t], rest)
  {
    if rest.Ok? { assert done + ([t] + rest.value) == (done + [t]) + rest.value; }
  }

  // ----- Section 2.2, "Type Encoding", of the kernel's BTF document -----

  /** A member as a compiler states it; a bit-field size is stored only in types whose `kflag` is set. */
  datatype MemberSpec = MemberSpec(nameOff: u32, typeId: u32, bitOffset: u32, bitfieldSize: nat)

  /** A type as a compiler states it; `words` is what follows a type without members. */
  datatype TypeSpec = TypeSpec(
    nameOff: u32, kind: nat, kflag: bool, vlen: nat, sizeType: u32, members: seq<MemberSpec>, words: seq<u32>)

  /** The 32-bit words that follow `struct btf_type` in each kind without members. */
  function TrailingWords(kind: nat, vlen: nat): (n: nat) {
    if kind == 1 then 1                       // INT: one word of encoding, offset and bits
    else if kind == 3 then 3                  // ARRAY: struct btf_array
    else if kind == 6 then 2 * vlen           // ENUM: name and value each
    else if kind == 13 then 2 * vlen          // FUNC_PROTO: name and type each
    else if kind == 14 then 1                 // VAR: linkage
    else if kind == 15 then 3 * vlen          // DATASEC: type, offset and size each
    else if kind == 17 then 1                 // DECL_TAG: component index
    else if kind == 19 then 3 * vlen          // ENUM64: name and two value words each
    else 0
  }

  predicate ProperMember(m: MemberSpec, kflag: bool) {
    if kflag then m.bitOffset < 0x100_0000 && m.bitfieldSize < 0x100 else m.bitfieldSize == 0
  }

  predicate ProperMembers(members: seq<MemberSpec>, kflag: bool) {
    forall i :: 0 <= i < |members| ==> ProperMember(members[i], kflag)
  }

  predicate ProperType(t: TypeSpec) {
    && 1 <= t.kind <= 19 && t.vlen < 0x1_0000
    && (if t.kind == 4 || t.kind == 5 then |t.members| == t.vlen && t.words == []   // STRUCT, UNION
        else t.members == [] && |t.words| == TrailingWords(t.kind, t.vlen))
    && ProperMembers(t.members, t.kflag)
  }

  predicate ProperTypes(types: seq<TypeSpec>) {
    forall i :: 0 <= i < |types| ==> ProperType(types[i])
  }

  function LittleEndian(n: u32): (bytes: seq<byte>)
    ensures |bytes| == 4
  {
    [n % 0x100, n / 0x100 % 0x100, n / 0x1_0000 % 0x100, n / 0x100_0000]
  }

  function EncodeInfo(t: TypeSpec): (info: u32)
    requires ProperType(t)
  {
    (if t.kflag then 0x8000_0000 else 0) + 0x100_0000 * t.kind + t.vlen
  }

  function EncodeMember(m: MemberSpec, kflag: bool): (bytes: seq<byte>)
    requires ProperMember(m, kflag)
    ensures |bytes| == 12
  {
    LittleEndian(m.nameOff) + LittleEndian(m.typeId)
    + LittleEndian(if kflag then 0x100_0000 * m.bitfieldSize + m.bitOffset else m.bitOffset)
  }

  function EncodeMembers(members: seq<MemberSpec>, kflag: bool): (bytes: seq<byte>)
    requires ProperMembers(members, kflag)
    ensures |bytes| == 12 * |members|
  {
    if members == [] then [] else EncodeMember(members[0], kflag) + EncodeMembers(members[1..], kflag)
  }

  function EncodeWords(words: seq<u32>): (bytes: seq<byte>)
    ensures |bytes| == 4 * |words|
  {
    if words == [] then [] else LittleEndian(words[0]) + EncodeWords(words[1..])
  }

  function EncodeType(t: TypeSpec): (bytes: seq<byte>)
    requires ProperType(t)
    ensures |bytes| == 12 + 12 * |t.members| + 4 * |t.words|
  {
    LittleEndian(t.nameOff) + LittleEndian(EncodeInfo(t)) + LittleEndian(t.sizeType)
    + EncodeMembers(t.members, t.kflag) + EncodeWords(t.words)
  }

  function EncodeTypes(types: seq<TypeSpec>): (bytes: seq<byte>)
    requires ProperTypes(types)
  {
    if types == [] then [] else EncodeType(types[0]) + EncodeTypes(types[1..])
  }

  /** What the program keeps of a type. */
  function Kept(t: TypeSpec): (r: RawType) {
    RawType(t.nameOff, t.kind, t.kflag, t.sizeType, KeptMembers(t.members))
  }

  function KeptMembers(members: seq<MemberSpec>): (kept: seq<Member>)
    ensures |kept| == |members|
    ensures forall i :: 0 <= i < |members| ==>
              kept[i] == Member(members[i].nameOff, members[i].typeId, members[i].bitOffset)
  {
    seq(|members|, i requires 0 <= i < |members| =>
      Member(members[i].nameOff, members[i].typeId, members[i].bitOffset))
  }

  function KeptTypes(types: seq<TypeSpec>): (kept: seq<RawType>)
    ensures |kept| == |types| && forall i :: 0 <= i < |types| ==> kept[i] == Kept(types[i])
  {
    if types == [] then [] else [Kept(types[0])] + KeptTypes(types[1..])
  }

  // ----- Reading inverts encoding -----

  lemma LittleEndianReads(n: u32, data: seq<byte>, pos: nat)
    requires StandsAt(LittleEndian(n), data, pos)
    ensures U32At(data, pos) == n
  {
    var four := data[pos..pos + 4];
    assert four[0] == data[pos] && four[1] == data[pos + 1] && four[2] == data[pos + 2] && four[3] == data[pos + 3];
    DigitsOf(n);
  }

  lemma DigitsOf(n: u32)
    ensures n == n % 0x100 + 0x100 * (n / 0x100 % 0x100) + 0x1_0000 * (n / 0x1_0000 % 0x100) + 0x100_0000 * (n / 0x100_0000)
  {
    assert n / 0x1_0000 == n / 0x100 / 0x100 && n / 0x100_0000 == n / 0x1_0000 / 0x100;
  }

  lemma InfoReads(t: TypeSpec)
    requires ProperType(t)
    ensures var info := EncodeInfo(t); KindOf(info) == t.kind && KflagOf(info) == t.kflag && VlenOf(info) == t.vlen
  {
    var info := EncodeInfo(t);
    var flag := if t.kflag then 1 else 0;
    assert info / 0x100_0000 == 128 * flag + t.kind;
    assert info / 0x8000_0000 == flag;
    assert info == 0x1_0000 * (0x8000 * flag + 0x100 * t.kind) + t.vlen;
  }

  lemma MemberReads(m: MemberSpec, kflag: bool, data: seq<byte>, pos: nat)
    requires ProperMember(m, kflag) && StandsAt(EncodeMember(m, kflag), data, pos)
    ensures pos + 12 <= |data| && MemberAt(data, pos, kflag) == Member(m.nameOff, m.typeId, m.bitOffset)
  {
    hide LittleEndian, U32At, StandsAt;
    var a, b := LittleEndian(m.nameOff), LittleEndian(m.typeId);
    var raw := if kflag then 0x100_0000 * m.bitfieldSize + m.bitOffset else m.bitOffset;
    StandsApart(a + b, LittleEndian(raw), data, pos);
    StandsApart(a, b, data, pos);
    LittleEndianReads(m.nameOff, data, pos);
    LittleEndianReads(m.typeId, data, pos + 4);
    LittleEndianReads(raw, data, pos + 8);
    assert BitOffset(raw, kflag) == m.bitOffset;
  }

  lemma {:induction false} MembersRead(members: seq<MemberSpec>, kflag: bool, data: seq<byte>, pos: nat, end: nat)
    requires ProperMembers(members, kflag)
    requires StandsAt(EncodeMembers(members, kflag), data, pos) && pos + 12 * |members| <= end <= |data|
    ensures ReadMembers(data, pos, end, kflag, |members|) == KeptMembers(members)
    decreases |members|
  {
    if members != [] {
      StandsApart(EncodeMember(members[0], kflag), EncodeMembers(members[1..], kflag), data, pos);
      MemberReads(members[0], kflag, data, pos);
      MembersRead(members[1..], kflag, data, pos + 12, end);
    }
  }

  lemma TrailingBytes(kind: nat, vlen: nat)
    requires 1 <= kind <= 19 && !HasMembers(kind)
    ensures ExtraBytes(kind, vlen) == Some(4 * TrailingWords(kind, vlen))
  {}

  lemma HeaderReads(t: TypeSpec, data: seq<byte>, pos: nat)
    requires ProperType(t) && StandsAt(EncodeType(t), data, pos)
    ensures pos + 12 <= |data| && U32At(data, pos) == t.nameOff && U32At(data, pos + 4) == EncodeInfo(t)
            && U32At(data, pos + 8) == t.sizeType && StandsAt(EncodeMembers(t.members, t.kflag), data, pos + 12)
  {
    var a, b, c := LittleEndian(t.nameOff), LittleEndian(EncodeInfo(t)), LittleEndian(t.sizeType);
    var m := EncodeMembers(t.members, t.kflag);
    StandsApart(a + b + c + m, EncodeWords(t.words), data, pos);
    StandsApart(a + b + c, m, data, pos);
    StandsApart(a + b, c, data, pos);
    StandsApart(a, b, data, pos);
    LittleEndianReads(t.nameOff, data, pos);
    LittleEndianReads(EncodeInfo(t), data, pos + 4);
    LittleEndianReads(t.sizeType, data, pos + 8);
  }

  lemma OneTypeReads(t: TypeSpec, data: seq<byte>, pos: nat, end: nat)
    requires ProperType(t) && StandsAt(EncodeType(t), data, pos) && pos + |EncodeType(t)| <= end <= |data|
    ensures ReadType(data, pos, end) == Ok(Entry(Kept(t), pos + |EncodeType(t)|))
  {
    HeaderReads(t, data, pos);
    InfoReads(t);
    FollowersRead(t, data, pos + 12, end);
  }

  lemma FirstTypeStands(types: seq<TypeSpec>, data: seq<byte>, pos: nat)
    requires types != [] && ProperTypes(types) && StandsAt(EncodeTypes(types), data, pos)
    ensures ProperType(types[0]) && var n := |EncodeType(types[0])|;
            && 0 < n <= |EncodeTypes(types)| && StandsAt(EncodeType(types[0]), data, pos)
            && ProperTypes(types[1..])
            && StandsAt(EncodeTypes(types[1..]), data, pos + n)
            && |EncodeTypes(types[1..])| == |EncodeTypes(types)| - n
  {
    hide EncodeType, ProperType, StandsAt;
    StandsApart(EncodeType(types[0]), EncodeTypes(types[1..]), data, pos);
  }

  lemma {:induction false} TypesRead(types: seq<TypeSpec>, data: seq<byte>, pos: nat, end: nat)
    requires ProperTypes(types) && end <= |data|
    requires StandsAt(EncodeTypes(types), data, pos) && pos + |EncodeTypes(types)| == end
    ensures ReadTypes(data, pos, end) == Ok(KeptTypes(types))
    decreases |types|
  {
    hide *;
    if types == [] {
      NoTypesRead(data, pos, end);
    } else {
      FirstTypeStands(types, data, pos);
      var next := pos + |EncodeType(types[0])|;
      OneTypeReads(types[0], data, pos, end);
      TypesRead(types[1..], data, next, end);
      ReadOnward(data, pos, end, Kept(types[0]), next);
      KeptFirst(types);
    }
  }

  lemma NoTypesRead(data: seq<byte>, pos: nat, end: nat)
    ensures EncodeTypes([]) == [] && KeptTypes([]) == []
    ensures end <= |data| && pos == end ==> ReadTypes(data, pos, end) == Ok([])
  {}

  lemma ReadOnward(data: seq<byte>, pos: nat, end: nat, t: RawType, next: nat)
    requires pos + 12 <= end <= |data| && ReadType(data, pos, end) == Ok(Entry(t, next))
    ensures ReadTypes(data, pos, end) == AfterTypes([t], ReadTypes(data, next, end))
  {}

  lemma KeptFirst(types: seq<TypeSpec>)
    requires types != []
    ensures AfterTypes([Kept(types[0])], Ok(KeptTypes(types[1..]))) == Ok(KeptTypes(types))
  {}

  /** What follows the header of a type is read as its members, or skipped. */
  lemma FollowersRead(t: TypeSpec, data: seq<byte>, pos: nat, end: nat)
    requires ProperType(t) && StandsAt(EncodeMembers(t.members, t.kflag), data, pos)
    requires pos + 12 * |t.members| <= end <= |data|
    ensures HasMembers(t.kind) ==> ReadMembers(data, pos, end, t.kflag, t.vlen) == KeptMembers(t.members)
    ensures !HasMembers(t.kind) ==> KeptMembers(t.members) == [] && ExtraBytes(t.kind, t.vlen) == Some(4 * |t.words|)
  {
    if HasMembers(t.kind) {
      MembersRead(t.members, t.kflag, data, pos, end);
    } else {
      TrailingBytes(t.kind, t.vlen);
    }
  }

  /** The header announces sections that lie within the data, with `types` encoded in the type section. */
  ghost predicate Holds(data: seq<byte>, types: seq<TypeSpec>) {
    && ProperTypes(types)
    && |data| >= 24 && U16At(data, 0) == BTF_MAGIC
    && StringStart(data) + U32At(data, 20) <= |data|
    && StandsAt(EncodeTypes(types), data, TypeStart(data))
    && U32At(data, 12) == |EncodeTypes(types)|
  }

  /**
   * For every list of types encoded as the format prescribes, parsing returns as many types, in the same places and
   * with the same names, kinds, flags, sizes and members; so the type with id n is entry n - 1.
   */
  lemma ParseInvertsEncoding(data: seq<byte>, types: seq<TypeSpec>)
    requires Holds(data, types)
    ensures var r := ParseBtf(data);
            && r.Ok? && |r.value.types| == |types|
            && (forall i :: 0 <= i < |types| ==> r.value.types[i] == Kept(types[i]))
            && r.value.strings == data[StringStart(data)..StringStart(data) + U32At(data, 20)]
  {
    hide ReadTypes, EncodeTypes, ProperTypes;
    TypesRead(types, data, TypeStart(data), TypeStart(data) + U32At(data, 12));
  }

  // ----- Whole files -----

  /** The header of version 1, which announces the type section right behind it and the strings behind that. */
  function EncodeHeader(typeLen: u32, stringLen: u32): (bytes: seq<byte>)
    ensures |bytes| == 24
  {
    [0x9F, 0xEB, 1, 0] + LittleEndian(24) + LittleEndian(0) + LittleEndian(typeLen) + LittleEndian(typeLen)
    + LittleEndian(stringLen)
  }

  predicate FitsFile(types: seq<TypeSpec>, strings: seq<byte>) {
    ProperTypes(types) && |EncodeTypes(types)| < 0x1_0000_0000 && |strings| < 0x1_0000_0000
  }

  function EncodeFile(types: seq<TypeSpec>, strings: seq<byte>): (data: seq<byte>)
    requires FitsFile(types, strings)
    ensures |data| == 24 + |EncodeTypes(types)| + |strings|
  {
    EncodeHeader(|EncodeTypes(types)|, |strings|) + EncodeTypes(types) + strings
  }

  lemma FileHeaderReads(data: seq<byte>, typeLen: u32, stringLen: u32)
    requires StandsAt(EncodeHeader(typeLen, stringLen), data, 0)
    ensures |data| >= 24 && U16At(data, 0) == BTF_MAGIC
    ensures TypeStart(data) == 24 && U32At(data, 12) == typeLen
    ensures StringStart(data) == 24 + typeLen && U32At(data, 20) == stringLen
  {
    MagicReads(data, EncodeHeader(typeLen, stringLen));
    hide LittleEndian, U32At, StandsAt;
    var magic: seq<byte> := [0x9F, 0xEB, 1, 0];
    var a, b, c, d := LittleEndian(24), LittleEndian(0), LittleEndian(typeLen), LittleEndian(stringLen);
    StandsApart(magic + a + b + c + c, d, data, 0);
    StandsApart(magic + a + b + c, c, data, 0);
    StandsApart(magic + a + b, c, data, 0);
    StandsApart(magic + a, b, data, 0);
    StandsApart(magic, a, data, 0);
    LittleEndianReads(24, data, 4);
    LittleEndianReads(0, data, 8);
    LittleEndianReads(typeLen, data, 12);
    LittleEndianReads(typeLen, data, 16);
    LittleEndianReads(stringLen, data, 20);
  }

  lemma MagicReads(data: seq<byte>, header: seq<byte>)
    requires StandsAt(header, data, 0) && |header| == 24 && header[0] == 0x9F && header[1] == 0xEB
    ensures |data| >= 24 && U16At(data, 0) == BTF_MAGIC
  {
    StandsElement(header, data, 0, 0);
    StandsElement(header, data, 0, 1);
  }

  lemma FileHolds(types: seq<TypeSpec>, strings: seq<byte>)
    requires FitsFile(types, strings)
    ensures var data := EncodeFile(types, strings);
            && Holds(data, types) && U32At(data, 20) == |strings|
            && StandsAt(strings, data, StringStart(data)) && StringStart(data) + |strings| == |data|
  {
    hide EncodeHeader, EncodeTypes, ProperTypes, U32At, U16At, TypeStart, StringStart;
    var data := EncodeFile(types, strings);
    var header, body := EncodeHeader(|EncodeTypes(types)|, |strings|), EncodeTypes(types);
    assert data[0..|data|] == data;
    StandsApart(header + body, strings, data, 0);
    StandsApart(header, body, data, 0);
    FileHeaderReads(data, |body|, |strings|);
  }

  /** Decoding inverts encoding, for every list of types and every string section that fit into a file. */
  lemma ParseUndoesEncodeFile(types: seq<TypeSpec>, strings: seq<byte>)
    requires FitsFile(types, strings)
    ensures ParseBtf(EncodeFile(types, strings)) == Ok(Btf(strings, KeptTypes(types)))
  {
    hide *;
    FileTypesRead(types, strings);
    FileStringsRead(types, strings);
  }

  lemma FileTypesRead(types: seq<TypeSpec>, strings: seq<byte>)
    requires FitsFile(types, strings)
    ensures var r := ParseBtf(EncodeFile(types, strings)); r.Ok? && r.value.types == KeptTypes(types)
  {
    hide *;
    var data := EncodeFile(types, strings);
    FileHolds(types, strings);
    ParseInvertsEncoding(data, types);
    SameTypes(ParseBtf(data).value.types, types);
  }

  lemma FileStringsRead(types: seq<TypeSpec>, strings: seq<byte>)
    requires FitsFile(types, strings)
    ensures var r := ParseBtf(EncodeFile(types, strings)); r.Ok? ==> r.value.strings == strings
  {
    hide *;
    var data := EncodeFile(types, strings);
    FileHolds(types, strings);
    ParseInvertsEncoding(data, types);
    StandsSlice(strings, data, StringStart(data));
  }

  lemma StandsSlice(bytes: seq<byte>, data: seq<byte>, pos: nat)
    requires StandsAt(bytes, data, pos)
    ensures pos + |bytes| <= |data| && data[pos..pos + |bytes|] == bytes
  {}

  lemma SameTypes(read: seq<RawType>, types: seq<TypeSpec>)
    requires |read| == |types| && forall i :: 0 <= i < |types| ==> read[i] == Kept(types[i])
    ensures read == KeptTypes(types)
  {
    hide Kept;
  }

  // ----- Which data are refused -----

  /** Data that parse have a whole header, the magic number, and both sections inside them. */
  lemma ParsedFilesAreSound(data: seq<byte>)
    requires ParseBtf(data).Ok?
    ensures |data| >= 24 && data[0] == 0x9F && data[1] == 0xEB
    ensures U32At(data, 4) + U32At(data, 8) + U32At(data, 12) <= |data|
    ensures U32At(data, 4) + U32At(data, 16) + U32At(data, 20) <= |data|
  {
    hide ReadTypes, U32At;
  }

  /** A type is refused exactly if its kind is not known and announces further data. */
  lemma RefusedIffUnknown(data: seq<byte>, pos: nat, end: nat)
    requires pos + 12 <= end <= |data|
    ensures var info := U32At(data, pos + 4);
            ReadType(data, pos, end).Err? <==> info / 0x100_0000 % 32 > 19 && info % 0x1_0000 > 0
  {
    hide ReadMembers, U32At;
  }
}
