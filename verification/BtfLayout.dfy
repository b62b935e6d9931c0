/** Flattening a structure of a type table into its named members, through anonymous structures and unions. */
module BtfLayout {
  import opened Prelude
  import opened Reading
  import opened BtfFormat

  type Text = seq<byte>

  /** A type table and the standard library's test for valid UTF-8; names are kept as bytes. */
  datatype Table = Table(btf: Btf, isUtf8: Text -> bool)

  /** A flattened member: its name and its offset in bytes. */
  datatype Field = Field(name: Text, offset: nat)

  datatype LayoutError = NoSuchStruct(name: Text) | NoSuchField(name: Text)

  const MAX_DEPTH := 32
  const U32_MODULUS := 0x1_0000_0000

  /** The first position from `pos` on that holds a zero byte, or the end of the data. */
  function NulFrom(s: seq<byte>, pos: nat): (end: nat)
    requires pos <= |s|
    ensures pos <= end <= |s|
    ensures (forall i :: pos <= i < end ==> s[i] != 0) && (end < |s| ==> s[end] == 0)
    decreases |s| - pos
  {
    if pos == |s| || s[pos] == 0 then pos else NulFrom(s, pos + 1)
  }

  function GetString(b: Table, off: nat): (name: Text) {
    if off >= |b.btf.strings| then []
    else
      var bytes := b.btf.strings[off..NulFrom(b.btf.strings, off)];
      if b.isUtf8(bytes) then bytes else []
  }

  function NameOf(b: Table, m: Member): (name: Text) {
    GetString(b, m.nameOff)
  }

  /** The member's type is an entry of the table. */
  predicate Refers(b: Table, m: Member) {
    0 < m.typeId <= |b.btf.types|
  }

  function MembersOf(b: Table, t: nat): (members: seq<Member>)
    requires t < |b.btf.types|
  {
    b.btf.types[t].members
  }

  /** The addition of the program, in 32 bits. */
  function WrappingAdd(a: u32, b: u32): (sum: u32) {
    (a + b) % U32_MODULUS
  }

  /** What `collect_members` adds for one type. */
  function Collect(b: Table, t: nat, base: u32, depth: nat): (fields: seq<Field>)
    requires t < |b.btf.types|
    decreases if depth > MAX_DEPTH then 0 else MAX_DEPTH + 1 - depth, 0
  {
    if depth > MAX_DEPTH then [] else CollectFrom(b, t, base, depth, 0)
  }

  /** What it adds for the type's members from number `i` on. */
  function CollectFrom(b: Table, t: nat, base: u32, depth: nat, i: nat): (fields: seq<Field>)
    requires t < |b.btf.types| && i <= |MembersOf(b, t)| && depth <= MAX_DEPTH
    decreases MAX_DEPTH + 1 - depth, 0, |MembersOf(b, t)| - i
  {
    if i == |MembersOf(b, t)| then []
    else CollectMember(b, MembersOf(b, t)[i], base, depth) + CollectFrom(b, t, base, depth, i + 1)
  }

  function CollectMember(b: Table, m: Member, base: u32, depth: nat): (fields: seq<Field>)
    requires depth <= MAX_DEPTH
    decreases MAX_DEPTH - depth, 1
  {
    var offset := WrappingAdd(base, m.bitOffset);
    if NameOf(b, m) != [] then [Field(NameOf(b, m), offset / 8)]
    else if Refers(b, m) then Collect(b, m.typeId - 1, offset, depth + 1)
    else []
  }

  predicate IsNamedStruct(b: Table, t: nat, name: Text)
    requires t < |b.btf.types|
  {
    HasMembers(b.btf.types[t].kind) && GetString(b, b.btf.types[t].nameOff) == name
  }

  // ----- The algorithms -----

  method CollectMembers(b: Table, t: nat, base: u32, depth: nat, result: seq<Field>) returns (all: seq<Field>)
    requires t < |b.btf.types|
    ensures all == result + Collect(b, t, base, depth)
    decreases if depth > MAX_DEPTH then 0 else MAX_DEPTH + 1 - depth
  {
    all := result;
    if depth > MAX_DEPTH { return; }
    var i := 0;
    while i < |MembersOf(b, t)|
      invariant i <= |MembersOf(b, t)|
      invariant all + CollectFrom(b, t, base, depth, i) == result + Collect(b, t, base, depth)
    {
      var m := MembersOf(b, t)[i];
      ghost var before, here, rest := all, CollectMember(b, m, base, depth), CollectFrom(b, t, base, depth, i + 1);
      var offset := WrappingAdd(base, m.bitOffset);
      if NameOf(b, m) != [] {
        all := all + [Field(NameOf(b, m), offset / 8)];
      } else if Refers(b, m) {
        all := CollectMembers(b, m.typeId - 1, offset, depth + 1, all);
      }
      assert all == before + here;
      assert before + (here + rest) == (before + here) + rest;
      i := i + 1;
    }
  }

  /** Type number `t` is a structure (kind 4) or union (kind 5) of the name. */
  ghost predicate Bears(b: Table, t: nat, name: Text) {
    && t < |b.btf.types| && (b.btf.types[t].kind == 4 || b.btf.types[t].kind == 5)
    && GetString(b, b.btf.types[t].nameOff) == name
  }

  method StructMembers(b: Table, name: Text) returns (r: Result<seq<Field>, LayoutError>)
    ensures r.Ok? ==> exists t: nat :: Bears(b, t, name) && r.value == Collect(b, t, 0, 0)
                                  && forall u :: 0 <= u < t ==> !Bears(b, u, name)
    ensures r.Err? <==> forall t: nat :: !Bears(b, t, name)
    ensures r.Err? ==> r.error == NoSuchStruct(name)
  {
    for t := 0 to |b.btf.types|
      invariant forall u :: 0 <= u < t ==> !Bears(b, u, name)
    {
      if IsNamedStruct(b, t, name) {
        assert Bears(b, t, name);
        var fields := CollectMembers(b, t, 0, 0, []);
        return Ok(fields);
      }
    }
    return Err(NoSuchStruct(name));
  }

  method FindOffset(fields: seq<Field>, name: Text) returns (r: Result<nat, LayoutError>)
    ensures r.Ok? ==> exists i :: 0 <= i < |fields| && fields[i] == Field(name, r.value)
                                  && forall j :: 0 <= j < i ==> fields[j].name != name
    ensures r.Err? <==> forall i :: 0 <= i < |fields| ==> fields[i].name != name
    ensures r.Err? ==> r.error == NoSuchField(name)
  {
    for i := 0 to |fields|
      invariant forall j :: 0 <= j < i ==> fields[j].name != name
    {
      if fields[i].name == name { return Ok(fields[i].offset); }
    }
    return Err(NoSuchField(name));
  }

  // ----- Paths to named members -----

  /** A way from a type to a named member, as member numbers: all members on the way but the last are anonymous. */
  type Path = seq<nat>

  ghost predicate IsPath(b: Table, t: nat, p: Path)
    requires t < |b.btf.types|
    decreases |p|
  {
    && p != [] && p[0] < |MembersOf(b, t)|
    && var m := MembersOf(b, t)[p[0]];
       if |p| == 1 then NameOf(b, m) != []
       else NameOf(b, m) == [] && Refers(b, m) && IsPath(b, m.typeId - 1, p[1..])
  }

  /** The sum of the bit offsets along a path. */
  ghost function BitsAlong(b: Table, t: nat, p: Path): (bits: nat)
    requires t < |b.btf.types| && IsPath(b, t, p)
    decreases |p|
  {
    var m := MembersOf(b, t)[p[0]];
    m.bitOffset + if |p| == 1 then 0 else BitsAlong(b, m.typeId - 1, p[1..])
  }

  /** The name at the end of a path. */
  ghost function NameAlong(b: Table, t: nat, p: Path): (name: Text)
    requires t < |b.btf.types| && IsPath(b, t, p)
    decreases |p|
  {
    var m := MembersOf(b, t)[p[0]];
    if |p| == 1 then NameOf(b, m) else NameAlong(b, m.typeId - 1, p[1..])
  }

  /** Declaration order: a member before its later siblings and everything in them. */
  ghost predicate Before(p: Path, q: Path) {
    q != [] && (p == [] || p[0] < q[0] || (p[0] == q[0] && Before(p[1..], q[1..])))
  }

  ghost function FieldAlong(b: Table, t: nat, base: nat, p: Path): (f: Field)
    requires t < |b.btf.types| && IsPath(b, t, p)
  {
    Field(NameAlong(b, t, p), (base + BitsAlong(b, t, p)) % U32_MODULUS / 8)
  }

  /** `fields` are the fields at the ends of `paths`, in this order. */
  ghost predicate FieldsOf(b: Table, t: nat, base: nat, fields: seq<Field>, paths: seq<Path>)
    requires t < |b.btf.types|
  {
    |fields| == |paths|
    && forall k :: 0 <= k < |paths| ==> IsPath(b, t, paths[k]) && fields[k] == FieldAlong(b, t, base, paths[k])
  }

  ghost predicate InOrder(paths: seq<Path>) {
    forall i, j :: 0 <= i < j < |paths| ==> Before(paths[i], paths[j])
  }

  ghost function Prefixed(i: nat, paths: seq<Path>): (r: seq<Path>)
    ensures |r| == |paths| && forall k :: 0 <= k < |paths| ==> r[k] == [i] + paths[k]
  {
    seq(|paths|, k requires 0 <= k < |paths| => [i] + paths[k])
  }

  /** The paths from a type of at most `room` members, in declaration order. */
  ghost function Paths(b: Table, t: nat, room: nat): (paths: seq<Path>)
    requires t < |b.btf.types|
    decreases room, 0
  {
    if room == 0 then [] else PathsFrom(b, t, room, 0)
  }

  ghost function PathsFrom(b: Table, t: nat, room: nat, i: nat): (paths: seq<Path>)
    requires t < |b.btf.types| && i <= |MembersOf(b, t)| && room > 0
    decreases room, 0, |MembersOf(b, t)| - i
  {
    if i == |MembersOf(b, t)| then []
    else PathsOver(b, MembersOf(b, t)[i], room, i) + PathsFrom(b, t, room, i + 1)
  }

  /** The paths that begin with member `m`, number `i` of its type. */
  ghost function PathsOver(b: Table, m: Member, room: nat, i: nat): (paths: seq<Path>)
    requires room > 0
    decreases room - 1, 1
  {
    if NameOf(b, m) != [] then [[i]]
    else if Refers(b, m) then Prefixed(i, Paths(b, m.typeId - 1, room - 1))
    else []
  }

  // ----- The result lists the paths -----

  lemma FieldsConcat(b: Table, t: nat, base: nat, f: seq<Field>, p: seq<Path>, g: seq<Field>, q: seq<Path>)
    requires t < |b.btf.types| && FieldsOf(b, t, base, f, p) && FieldsOf(b, t, base, g, q)
    ensures FieldsOf(b, t, base, f + g, p + q)
  {
    hide FieldAlong, IsPath;
  }

  lemma WrapLate(x: nat, y: nat)
    ensures (x % U32_MODULUS + y) % U32_MODULUS == (x + y) % U32_MODULUS
  {}

  /** A path of an anonymous member's type goes on from the member. */
  lemma PathThrough(b: Table, t: nat, i: nat, p: Path)
    requires t < |b.btf.types| && i < |MembersOf(b, t)|
    requires var m := MembersOf(b, t)[i]; NameOf(b, m) == [] && Refers(b, m) && IsPath(b, m.typeId - 1, p)
    ensures var m := MembersOf(b, t)[i];
            && IsPath(b, t, [i] + p)
            && NameAlong(b, t, [i] + p) == NameAlong(b, m.typeId - 1, p)
            && BitsAlong(b, t, [i] + p) == m.bitOffset + BitsAlong(b, m.typeId - 1, p)
  {
    assert ([i] + p)[1..] == p;
  }

  lemma FieldsThrough(b: Table, t: nat, base: nat, i: nat, fields: seq<Field>, paths: seq<Path>)
    requires t < |b.btf.types| && i < |MembersOf(b, t)|
    requires var m := MembersOf(b, t)[i];
             NameOf(b, m) == [] && Refers(b, m)
             && FieldsOf(b, m.typeId - 1, (base + m.bitOffset) % U32_MODULUS, fields, paths)
    ensures FieldsOf(b, t, base, fields, Prefixed(i, paths))
  {
    hide IsPath, NameAlong, BitsAlong;
    var m := MembersOf(b, t)[i];
    forall k | 0 <= k < |paths|
      ensures IsPath(b, t, [i] + paths[k]) && fields[k] == FieldAlong(b, t, base, [i] + paths[k])
    {
      PathThrough(b, t, i, paths[k]);
      WrapLate(base + m.bitOffset, BitsAlong(b, m.typeId - 1, paths[k]));
    }
  }

  lemma {:induction false} CollectFollowsPaths(b: Table, t: nat, base: u32, depth: nat)
    requires t < |b.btf.types| && depth <= MAX_DEPTH + 1
    ensures FieldsOf(b, t, base, Collect(b, t, base, depth), Paths(b, t, MAX_DEPTH + 1 - depth))
    decreases MAX_DEPTH + 1 - depth, 0
  {
    if depth <= MAX_DEPTH { CollectFromFollowsPaths(b, t, base, depth, 0); }
  }

  lemma {:induction false} CollectFromFollowsPaths(b: Table, t: nat, base: u32, depth: nat, i: nat)
    requires t < |b.btf.types| && i <= |MembersOf(b, t)| && depth <= MAX_DEPTH
    ensures FieldsOf(b, t, base, CollectFrom(b, t, base, depth, i), PathsFrom(b, t, MAX_DEPTH + 1 - depth, i))
    decreases MAX_DEPTH + 1 - depth, 0, |MembersOf(b, t)| - i
  {
    hide FieldsOf, CollectMember, PathsOver;
    if i < |MembersOf(b, t)| {
      var m, room := MembersOf(b, t)[i], MAX_DEPTH + 1 - depth;
      CollectMemberFollowsPaths(b, t, base, depth, i);
      CollectFromFollowsPaths(b, t, base, depth, i + 1);
      FieldsConcat(b, t, base, CollectMember(b, m, base, depth), PathsOver(b, m, room, i),
                   CollectFrom(b, t, base, depth, i + 1), PathsFrom(b, t, room, i + 1));
    } else {
      NoFields(b, t, base);
    }
  }

  lemma NoFields(b: Table, t: nat, base: nat)
    requires t < |b.btf.types|
    ensures FieldsOf(b, t, base, [], [])
  {}

  lemma {:induction false} CollectMemberFollowsPaths(b: Table, t: nat, base: u32, depth: nat, i: nat)
    requires t < |b.btf.types| && i < |MembersOf(b, t)| && depth <= MAX_DEPTH
    ensures var m := MembersOf(b, t)[i];
            FieldsOf(b, t, base, CollectMember(b, m, base, depth), PathsOver(b, m, MAX_DEPTH + 1 - depth, i))
    decreases MAX_DEPTH - depth, 1
  {
    var m := MembersOf(b, t)[i];
    if NameOf(b, m) != [] {
      assert IsPath(b, t, [i]);
    } else if Refers(b, m) {
      var child, offset, room := m.typeId - 1, WrappingAdd(base, m.bitOffset), MAX_DEPTH - depth;
      CollectFollowsPaths(b, child, offset, depth + 1);
      FieldsThrough(b, t, base, i, Collect(b, child, offset, depth + 1), Paths(b, child, room));
    }
  }

  // ----- The paths listed are the paths there are, in declaration order -----

  lemma {:induction false} ListedIffPath(b: Table, t: nat, room: nat, p: Path)
    requires t < |b.btf.types|
    ensures p in Paths(b, t, room) <==> IsPath(b, t, p) && |p| <= room
    decreases room, 0
  {
    if room > 0 { ListedFromIffPath(b, t, room, 0, p); }
  }

  lemma {:induction false} ListedFromIffPath(b: Table, t: nat, room: nat, i: nat, p: Path)
    requires t < |b.btf.types| && i <= |MembersOf(b, t)| && room > 0
    ensures p in PathsFrom(b, t, room, i) <==> IsPath(b, t, p) && |p| <= room && p[0] >= i
    decreases room, 0, |MembersOf(b, t)| - i
  {
    hide PathsOver;
    if i < |MembersOf(b, t)| {
      ListedOverIffPath(b, t, room, i, p);
      ListedFromIffPath(b, t, room, i + 1, p);
    }
  }

  lemma {:induction false} ListedOverIffPath(b: Table, t: nat, room: nat, i: nat, p: Path)
    requires t < |b.btf.types| && i < |MembersOf(b, t)| && room > 0
    ensures p in PathsOver(b, MembersOf(b, t)[i], room, i) <==> IsPath(b, t, p) && |p| <= room && p[0] == i
    decreases room - 1, 1
  {
    var m := MembersOf(b, t)[i];
    if NameOf(b, m) != [] {
      assert IsPath(b, t, p) && p[0] == i ==> p == [i];
    } else if Refers(b, m) {
      var below := Paths(b, m.typeId - 1, room - 1);
      if p != [] {
        ListedIffPath(b, m.typeId - 1, room - 1, p[1..]);
        PrefixedListed(i, below, p);
        assert p[1..] == [] ==> !IsPath(b, m.typeId - 1, p[1..]);
      }
    }
  }

  lemma PrefixedListed(i: nat, paths: seq<Path>, p: Path)
    requires p != []
    ensures p in Prefixed(i, paths) <==> p[0] == i && p[1..] in paths
  {
    if p[0] == i && p[1..] in paths {
      var k :| 0 <= k < |paths| && paths[k] == p[1..];
      assert Prefixed(i, paths)[k] == [i] + p[1..] == p;
    }
    if p in Prefixed(i, paths) {
      var k :| 0 <= k < |paths| && Prefixed(i, paths)[k] == p;
      assert ([i] + paths[k])[1..] == paths[k];
    }
  }

  lemma {:induction false} PathsAreInOrder(b: Table, t: nat, room: nat)
    requires t < |b.btf.types|
    ensures InOrder(Paths(b, t, room))
    decreases room, 0
  {
    if room > 0 { PathsFromInOrder(b, t, room, 0); }
  }

  lemma {:induction false} PathsFromInOrder(b: Table, t: nat, room: nat, i: nat)
    requires t < |b.btf.types| && i <= |MembersOf(b, t)| && room > 0
    ensures InOrder(PathsFrom(b, t, room, i))
    decreases room, 0, |MembersOf(b, t)| - i
  {
    hide PathsOver, InOrder, IsPath;
    if i < |MembersOf(b, t)| {
      var here, later := PathsOver(b, MembersOf(b, t)[i], room, i), PathsFrom(b, t, room, i + 1);
      PathsOverInOrder(b, t, room, i);
      PathsFromInOrder(b, t, room, i + 1);
      forall p, q | p in here && q in later ensures Before(p, q) {
        ListedOverIffPath(b, t, room, i, p);
        ListedFromIffPath(b, t, room, i + 1, q);
        PathsNotEmpty(b, t, p);
        PathsNotEmpty(b, t, q);
      }
      OrderConcat(here, later);
    } else {
      NothingInOrder();
    }
  }

  lemma PathsNotEmpty(b: Table, t: nat, p: Path)
    requires t < |b.btf.types| && IsPath(b, t, p)
    ensures p != []
  {}

  lemma NothingInOrder()
    ensures InOrder([])
  {}

  lemma OrderConcat(a: seq<Path>, b: seq<Path>)
    requires InOrder(a) && InOrder(b) && forall p, q :: p in a && q in b ==> Before(p, q)
    ensures InOrder(a + b)
  {
    hide Before;
  }

  lemma {:induction false} PathsOverInOrder(b: Table, t: nat, room: nat, i: nat)
    requires t < |b.btf.types| && i < |MembersOf(b, t)| && room > 0
    ensures InOrder(PathsOver(b, MembersOf(b, t)[i], room, i))
    decreases room - 1, 1
  {
    var m := MembersOf(b, t)[i];
    if NameOf(b, m) == [] && Refers(b, m) {
      PathsAreInOrder(b, m.typeId - 1, room - 1);
      PrefixedInOrder(i, Paths(b, m.typeId - 1, room - 1));
    }
  }

  lemma PrefixedInOrder(i: nat, paths: seq<Path>)
    requires InOrder(paths)
    ensures InOrder(Prefixed(i, paths))
  {
    forall j, k | 0 <= j < k < |paths| ensures Before([i] + paths[j], [i] + paths[k]) {
      assert ([i] + paths[j])[1..] == paths[j] && ([i] + paths[k])[1..] == paths[k];
    }
  }

  lemma {:induction false} BeforeIsStrict(p: Path, q: Path)
    ensures !(Before(p, q) && Before(q, p)) && (Before(p, q) || Before(q, p) || p == q)
  {
    if p != [] && q != [] && p[0] == q[0] {
      BeforeIsStrict(p[1..], q[1..]);
      assert p[1..] == q[1..] ==> p == [p[0]] + p[1..] == q;
    }
  }

  // ----- What the layout of a structure is -----

  /**
   * The flattened members of type `t` are, in declaration order and each once, the named members at the ends of all
   * paths with at most 32 anonymous members; each has the sum of the bit offsets on its path, in 32 bits, divided by 8.
   */
  lemma LayoutIsAllPaths(b: Table, t: nat)
    requires t < |b.btf.types|
    ensures var paths := Paths(b, t, 33);
            && FieldsOf(b, t, 0, Collect(b, t, 0, 0), paths) && InOrder(paths)
            && (forall j, k :: 0 <= j < k < |paths| ==> paths[j] != paths[k])
            && (forall p :: p in paths <==> IsPath(b, t, p) && |p| <= 33)
  {
    hide Paths, IsPath, Collect, FieldsOf, Before;
    var paths := Paths(b, t, 33);
    CollectFollowsPaths(b, t, 0, 0);
    PathsAreInOrder(b, t, 33);
    forall p ensures p in paths <==> IsPath(b, t, p) && |p| <= 33 {
      ListedIffPath(b, t, 33, p);
    }
    forall j, k | 0 <= j < k < |paths| ensures paths[j] != paths[k] {
      BeforeIsStrict(paths[j], paths[k]);
    }
  }

  /** More room changes the list exactly if there are paths that need it. */
  lemma {:induction false} RoomMatters(b: Table, t: nat, room: nat, more: nat)
    requires t < |b.btf.types| && room <= more
    ensures Paths(b, t, more) == Paths(b, t, room) <==> forall p :: IsPath(b, t, p) && |p| <= more ==> |p| <= room
  {
    if Paths(b, t, more) == Paths(b, t, room) {
      forall p | IsPath(b, t, p) && |p| <= more ensures |p| <= room {
        ListedIffPath(b, t, room, p);
        ListedIffPath(b, t, more, p);
      }
    }
    if forall p :: IsPath(b, t, p) && |p| <= more ==> |p| <= room {
      forall p ensures p in Paths(b, t, more) <==> p in Paths(b, t, room) {
        ListedIffPath(b, t, room, p);
        ListedIffPath(b, t, more, p);
      }
      PathsAreInOrder(b, t, room);
      PathsAreInOrder(b, t, more);
      OrderedListsAgree(Paths(b, t, more), Paths(b, t, room));
    }
  }

  lemma EmptyAlike(a: seq<Path>, b: seq<Path>)
    requires forall p :: p in a <==> p in b
    ensures a == [] <==> b == []
  {
    if a != [] { assert a[0] in b; }
    if b != [] { assert b[0] in a; }
  }

  /** Lists in order that have the same elements are equal. */
  lemma {:induction false} OrderedListsAgree(a: seq<Path>, b: seq<Path>)
    requires InOrder(a) && InOrder(b) && forall p :: p in a <==> p in b
    ensures a == b
  {
    EmptyAlike(a, b);
    if a != [] {
      assert a[0] in b && b[0] in a;
      BeforeIsStrict(a[0], b[0]);
      assert a[0] == b[0];
      forall p ensures p in a[1..] <==> p in b[1..] {
        assert p in a <==> p == a[0] || p in a[1..];
        assert p in b <==> p == b[0] || p in b[1..];
        BeforeIsStrict(a[0], a[0]);
      }
      OrderedListsAgree(a[1..], b[1..]);
      assert a == [a[0]] + a[1..] && b == [b[0]] + b[1..];
    }
  }

  /** Anonymous members are nested at most 32 deep. */
  ghost predicate IsShallow(b: Table, t: nat)
    requires t < |b.btf.types|
  {
    forall p :: IsPath(b, t, p) ==> |p| <= 33
  }

  ghost predicate NoLimitListsMore(b: Table, t: nat)
    requires t < |b.btf.types|
  {
    forall more :: more >= 33 ==> Paths(b, t, more) == Paths(b, t, 33)
  }

  /**
   * The limit loses nothing exactly if anonymous members are nested at most 32 deep: then, and only then, the layout
   * has every path there is, whatever larger limit one takes.
   */
  lemma CompleteIffShallow(b: Table, t: nat)
    requires t < |b.btf.types|
    ensures NoLimitListsMore(b, t) <==> IsShallow(b, t)
  {
    hide Paths, IsPath;
    if IsShallow(b, t) {
      forall more | more >= 33 ensures Paths(b, t, more) == Paths(b, t, 33) {
        RoomMatters(b, t, 33, more);
      }
    }
    if NoLimitListsMore(b, t) {
      forall p | IsPath(b, t, p) ensures |p| <= 33 {
        if |p| > 33 {
          RoomMatters(b, t, 33, |p|);
        }
      }
    }
  }

  /** The byte offset is the true one exactly if the sum of the bit offsets does not leave 32 bits. */
  lemma OffsetIsExactIff(b: Table, t: nat, p: Path)
    requires t < |b.btf.types| && IsPath(b, t, p)
    ensures FieldAlong(b, t, 0, p).offset == BitsAlong(b, t, p) / 8 <==> BitsAlong(b, t, p) < U32_MODULUS
  {
    WrappedSum(BitsAlong(b, t, p));
  }

  lemma WrappedSum(s: nat)
    ensures s % U32_MODULUS / 8 == s / 8 <==> s < U32_MODULUS
  {
    assert s / 8 == U32_MODULUS / 8 * (s / U32_MODULUS) + s % U32_MODULUS / 8;
  }

  /** The member found by name is the first in declaration order of those that anonymous members lead to. */
  lemma FoundIsFirstPath(b: Table, t: nat, name: Text, i: nat)
    requires t < |b.btf.types|
    requires var fields := Collect(b, t, 0, 0);
             i < |fields| && fields[i].name == name && forall j :: 0 <= j < i ==> fields[j].name != name
    ensures exists p :: IsPath(b, t, p) && |p| <= 33 && Collect(b, t, 0, 0)[i] == FieldAlong(b, t, 0, p)
                        && forall q :: IsPath(b, t, q) && |q| <= 33 && NameAlong(b, t, q) == name && q != p
                                       ==> Before(p, q)
  {
    hide Paths, IsPath, NameAlong, Collect, FieldAlong, FieldsOf, InOrder, Before;
    var paths := Paths(b, t, 33);
    LayoutIsAllPaths(b, t);
    FirstOfName(b, t, Collect(b, t, 0, 0), paths, name, i);
    var p := paths[i];
    assert p in paths;
    forall q | IsPath(b, t, q) && |q| <= 33 && NameAlong(b, t, q) == name && q != p ensures Before(p, q) {
      assert q in paths;
      var k :| 0 <= k < |paths| && paths[k] == q;
    }
  }

  /** The first field of a name stands at the first path to that name. */
  lemma FirstOfName(b: Table, t: nat, fields: seq<Field>, paths: seq<Path>, name: Text, i: nat)
    requires t < |b.btf.types| && FieldsOf(b, t, 0, fields, paths) && InOrder(paths)
    requires i < |fields| && fields[i].name == name && forall j :: 0 <= j < i ==> fields[j].name != name
    ensures |paths| == |fields| && IsPath(b, t, paths[i]) && fields[i] == FieldAlong(b, t, 0, paths[i])
    ensures forall k :: 0 <= k < |paths| && k != i && IsPath(b, t, paths[k]) && NameAlong(b, t, paths[k]) == name ==>
              Before(paths[i], paths[k])
  {
    hide IsPath, NameAlong, BitsAlong, Before;
    forall k | 0 <= k < |paths| && k != i && IsPath(b, t, paths[k]) && NameAlong(b, t, paths[k]) == name
      ensures Before(paths[i], paths[k])
    {
      assert fields[k] == FieldAlong(b, t, 0, paths[k]);
    }
  }

  // ----- Names -----

  /** Wherever a name without zero bytes stands before a zero byte or the end of the section, exactly that name is read. */
  lemma NameReads(b: Table, off: nat, name: Text)
    requires 0 !in name && b.isUtf8(name) && StandsAt(name, b.btf.strings, off)
    requires var end := off + |name|; end < |b.btf.strings| ==> b.btf.strings[end] == 0
    ensures GetString(b, off) == name
  {
    var s, end := b.btf.strings, off + |name|;
    forall k | off <= k < end ensures s[k] != 0 { assert s[k] == s[off..end][k - off]; }
    if off < |s| { NulIsAt(s, off, end); }
  }

  lemma {:induction false} NulIsAt(s: seq<byte>, pos: nat, end: nat)
    requires pos <= end <= |s| && (forall k :: pos <= k < end ==> s[k] != 0) && (end < |s| ==> s[end] == 0)
    ensures NulFrom(s, pos) == end
    decreases end - pos
  {
    if pos < end { NulIsAt(s, pos + 1, end); }
  }

  /** An offset behind the section, or bytes that are no text, give the empty name. */
  lemma BadNamesAreEmpty(b: Table, off: nat)
    ensures off >= |b.btf.strings| ==> GetString(b, off) == []
    ensures off < |b.btf.strings| && !b.isUtf8(b.btf.strings[off..NulFrom(b.btf.strings, off)]) ==> GetString(b, off) == []
  {}

  // ----- Where the layout is not the true one -----

  lemma {:induction false} PathOfEveryLength(b: Table, t: nat, i: nat, j: nat, n: nat) returns (p: Path)
    requires t < |b.btf.types| && i < |MembersOf(b, t)| && j < |MembersOf(b, t)|
    requires NameOf(b, MembersOf(b, t)[i]) == [] && MembersOf(b, t)[i].typeId == t + 1
    requires NameOf(b, MembersOf(b, t)[j]) != []
    ensures IsPath(b, t, p) && |p| == n + 1
  {
    p := [j];
    if n > 0 {
      var q := PathOfEveryLength(b, t, i, j, n - 1);
      p := [i] + q;
      PathThrough(b, t, i, q);
    }
  }

  /** A structure that contains itself anonymously beside a named member has members that no limit lists. */
  lemma SelfNestingLosesMembers(b: Table, t: nat, i: nat, j: nat)
    requires t < |b.btf.types| && i < |MembersOf(b, t)| && j < |MembersOf(b, t)|
    requires NameOf(b, MembersOf(b, t)[i]) == [] && MembersOf(b, t)[i].typeId == t + 1
    requires NameOf(b, MembersOf(b, t)[j]) != []
    ensures !NoLimitListsMore(b, t)
  {
    var p := PathOfEveryLength(b, t, i, j, 33);
    CompleteIffShallow(b, t);
  }

  /** Two nested members at offsets that add up to 32 bits or more are given a wrong offset. */
  lemma FarNestingWraps(b: Table, t: nat, i: nat, j: nat)
    requires t < |b.btf.types| && i < |MembersOf(b, t)|
    requires var m := MembersOf(b, t)[i];
             && NameOf(b, m) == [] && Refers(b, m) && j < |MembersOf(b, m.typeId - 1)|
             && (var l := MembersOf(b, m.typeId - 1)[j]; NameOf(b, l) != [] && m.bitOffset + l.bitOffset >= U32_MODULUS)
    ensures IsPath(b, t, [i, j]) && FieldAlong(b, t, 0, [i, j]).offset != BitsAlong(b, t, [i, j]) / 8
  {
    var m := MembersOf(b, t)[i];
    assert [i] + [j] == [i, j];
    PathThrough(b, t, i, [j]);
    OffsetIsExactIff(b, t, [i, j]);
  }

  /** A table of two structures: the first contains itself and, at bit 2^31, the second, whose member "a" is at bit 2^31. */
  function OddTable(): (b: Table) {
    Table(Btf([0, 97, 0], [
      RawType(0, KIND_STRUCT, false, 0, [Member(0, 1, 0), Member(0, 2, 0x8000_0000), Member(1, 2, 0)]),
      RawType(0, KIND_STRUCT, false, 0, [Member(1, 1, 0x8000_0000)])]), s => true)
  }

  /** Both happen in one and the same table. */
  lemma OddTableGoesWrong()
    ensures var b := OddTable();
            && !NoLimitListsMore(b, 0)
            && IsPath(b, 0, [1, 0]) && FieldAlong(b, 0, 0, [1, 0]).offset != BitsAlong(b, 0, [1, 0]) / 8
  {
    var b := OddTable();
    OddNames(b);
    hide GetString, Paths, IsPath, NoLimitListsMore, FieldAlong, BitsAlong;
    SelfNestingLosesMembers(b, 0, 0, 2);
    FarNestingWraps(b, 0, 1, 0);
  }

  lemma OddNames(b: Table)
    requires b.btf.strings == [0, 97, 0] && forall s :: b.isUtf8(s)
    ensures GetString(b, 0) == [] && GetString(b, 1) == [97]
  {
    var s := b.btf.strings;
    assert s[1] != 0 && NulFrom(s, 1) == NulFrom(s, 2) == 2;
    assert s[1..2] == [97] && s[0..0] == [];
  }

  // ----- Members behind modifiers -----

  /** `typedef`, `volatile`, `const`, `restrict` and type tags only refer to another type. */
  predicate IsModifier(kind: nat) {
    kind == 8 || kind == 9 || kind == 10 || kind == 11 || kind == 18
  }

  /** The table is one that can be parsed: types other than structures and unions have no members. */
  ghost predicate MembersInStructs(types: seq<RawType>) {
    forall i :: 0 <= i < |types| ==> types[i].members != [] ==> HasMembers(types[i].kind)
  }

  /** The type that a reference means, behind at most `steps - 1` modifiers. */
  ghost function Target(b: Table, typeId: nat, steps: nat): (t: Option<nat>)
    ensures t.Some? ==> t.value < |b.btf.types|
    decreases steps
  {
    if steps == 0 || typeId == 0 || typeId > |b.btf.types| then None
    else
      var ty := b.btf.types[typeId - 1];
      if IsModifier(ty.kind) then Target(b, ty.sizeType, steps - 1) else Some(typeId - 1)
  }

  /** A way to a named member of the C structure: like a path, but through modifiers as well. */
  ghost predicate IsTruePath(b: Table, t: nat, p: Path)
    requires t < |b.btf.types|
    decreases |p|
  {
    && p != [] && p[0] < |MembersOf(b, t)|
    && var m := MembersOf(b, t)[p[0]];
       var child := Target(b, m.typeId, |b.btf.types|);
       if |p| == 1 then NameOf(b, m) != []
       else NameOf(b, m) == [] && child.Some? && IsTruePath(b, child.value, p[1..])
  }

  /** An anonymous member on the way has a modifier as its type. */
  ghost predicate PassesModifier(b: Table, t: nat, p: Path)
    requires t < |b.btf.types| && IsTruePath(b, t, p)
    decreases |p|
  {
    |p| > 1
    && var m := MembersOf(b, t)[p[0]];
       || (Refers(b, m) && IsModifier(b.btf.types[m.typeId - 1].kind))
       || PassesModifier(b, Target(b, m.typeId, |b.btf.types|).value, p[1..])
  }

  /**
   * The program does not look through modifiers: it follows exactly those ways to named members on which no anonymous
   * member has a modifier as its type, and misses every other one.
   */
  lemma {:induction false} PathIffNoModifier(b: Table, t: nat, p: Path)
    requires t < |b.btf.types| && MembersInStructs(b.btf.types)
    ensures IsPath(b, t, p) <==> IsTruePath(b, t, p) && !PassesModifier(b, t, p)
    decreases |p|
  {
    if |p| > 1 && p[0] < |MembersOf(b, t)| {
      var m := MembersOf(b, t)[p[0]];
      if Refers(b, m) {
        if IsModifier(b.btf.types[m.typeId - 1].kind) {
          assert MembersOf(b, m.typeId - 1) == [];
        } else {
          PathIffNoModifier(b, m.typeId - 1, p[1..]);
        }
      }
    }
  }

  lemma {:induction false} ParsedMembersInStructs(data: seq<byte>, pos: nat, end: nat)
    requires end <= |data|
    ensures ReadTypes(data, pos, end).Ok? ==> MembersInStructs(ReadTypes(data, pos, end).value)
    decreases if pos <= end then end - pos else 0
  {
    if pos + 12 <= end && ReadType(data, pos, end).Ok? {
      var entry := ReadType(data, pos, end).value;
      OneTypeInStructs(data, pos, end);
      hide ReadType;
      ParsedMembersInStructs(data, entry.next, end);
    }
  }

  lemma OneTypeInStructs(data: seq<byte>, pos: nat, end: nat)
    requires pos + 12 <= end <= |data| && ReadType(data, pos, end).Ok?
    ensures var t := ReadType(data, pos, end).value.t; t.members != [] ==> HasMembers(t.kind)
  {
    hide U32At, KindOf, VlenOf, KflagOf, ReadMembers;
  }

  /** In every parsed table the layout lacks just the members that stand behind modifiers, up to the depth limit. */
  lemma LayoutMissesModifiers(data: seq<byte>, isUtf8: Text -> bool, t: nat, p: Path)
    requires ParseBtf(data).Ok? && t < |ParseBtf(data).value.types|
    ensures var b := Table(ParseBtf(data).value, isUtf8);
            p in Paths(b, t, 33) <==> IsTruePath(b, t, p) && !PassesModifier(b, t, p) && |p| <= 33
  {
    var b := Table(ParseBtf(data).value, isUtf8);
    ParsedMembersInStructs(data, TypeStart(data), TypeStart(data) + U32At(data, 12));
    hide ReadTypes, Paths, IsPath, IsTruePath, PassesModifier;
    ListedIffPath(b, t, 33, p);
    PathIffNoModifier(b, t, p);
  }
}
