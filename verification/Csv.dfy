/** Exporting packets as CSV, and a reader of RFC 4180, section 2 that recovers what was exported. */
module Csv {
  import opened Prelude
  import opened FilterEval
  import opened Numerals
  import opened Reading
  import opened PacketStore

  /** How times are written: seconds with six decimals, and ISO 8601. */
  datatype TimeFormat = TimeFormat(seconds: real -> string, iso: real -> string) {
    /** Seconds are written as numerals. */
    ghost predicate Lawful() {
      forall t :: IsNumeral(seconds(t))
    }
  }

  predicate NeedsQuotes(c: char) {
    c == '"' || c == ',' || c == '\n' || c == '\r'
  }

  predicate IsPlain(s: string) {
    forall i :: 0 <= i < |s| ==> !NeedsQuotes(s[i])
  }

  function DoubleQuotes(s: string): (r: string) {
    if s == "" then "" else (if s[0] == '"' then "\"\"" else [s[0]]) + DoubleQuotes(s[1..])
  }

  function Quoted(s: string): (r: string) {
    "\"" + DoubleQuotes(s) + "\""
  }

  function CsvEscape(s: string): (r: string) {
    if IsPlain(s) then s else Quoted(s)
  }

  // ----- Lines of the exported file -----

  const ColumnNames: seq<string> :=
    ["No.", "Time", "Absolute Time", "Source", "Destination", "Protocol", "Length", "SrcPort", "DstPort", "Info",
     "PfAction", "PfDirection", "PfInterface", "PfRule", "PfReason", "EncSpi", "EncFlags"]

  function OptDecimal(n: Option<nat>): (s: string) {
    if n.Some? then Decimal(n.value) else ""
  }

  function AbsoluteTime(fmt: TimeFormat, p: Packet, firstTs: Option<real>): (s: string) {
    if firstTs.Some? then fmt.iso(firstTs.value + p.timestamp) else ""
  }

  /** What the last seven columns say. */
  function MetaFields(meta: Option<LinkMeta>): (fields: seq<string>)
    ensures |fields| == 7
  {
    match meta
    case Some(Pflog(action, direction, ifname, rule, reason)) =>
      [action, direction, ifname, Decimal(rule), reason, "", ""]
    case Some(Enc(spi, _, flagsText)) => ["", "", "", "", "", "0x" + Hex(spi, 8), flagsText]
    case None => ["", "", "", "", "", "", ""]
  }

  /** What a row says of a packet. */
  function RowFields(fmt: TimeFormat, p: Packet, firstTs: Option<real>): (fields: seq<string>) {
    [Decimal(p.index + 1), fmt.seconds(p.timestamp), AbsoluteTime(fmt, p, firstTs), p.source, p.destination,
     p.protocol.display, Decimal(p.originalLength), OptDecimal(p.srcPort), OptDecimal(p.dstPort), p.info]
    + MetaFields(p.linkMeta)
  }

  /** The row as it is written: numbers as they are, everything else escaped. */
  function RowCells(fmt: TimeFormat, p: Packet, firstTs: Option<real>): (cells: seq<string>) {
    [Decimal(p.index + 1), fmt.seconds(p.timestamp), CsvEscape(AbsoluteTime(fmt, p, firstTs)), CsvEscape(p.source),
     CsvEscape(p.destination), CsvEscape(p.protocol.display), Decimal(p.originalLength), OptDecimal(p.srcPort),
     OptDecimal(p.dstPort), CsvEscape(p.info)]
    + Escaped(MetaFields(p.linkMeta))
  }

  function Escaped(fields: seq<string>): (cells: seq<string>)
    ensures |cells| == |fields| && forall i :: 0 <= i < |fields| ==> cells[i] == CsvEscape(fields[i])
  {
    seq(|fields|, i requires 0 <= i < |fields| => CsvEscape(fields[i]))
  }

  function AllQuoted(fields: seq<string>): (cells: seq<string>)
    ensures |cells| == |fields| && forall i :: 0 <= i < |fields| ==> cells[i] == Quoted(fields[i])
  {
    seq(|fields|, i requires 0 <= i < |fields| => Quoted(fields[i]))
  }

  function Line(cells: seq<string>): (s: string) {
    if cells == [] then "\n"
    else if |cells| == 1 then cells[0] + "\n"
    else cells[0] + "," + Line(cells[1..])
  }

  function Lines(rows: seq<seq<string>>): (s: string) {
    if rows == [] then "" else Line(rows[0]) + Lines(rows[1..])
  }

  /** The cells of all rows of an export. */
  function Sheet(fmt: TimeFormat, packets: seq<Packet>, firstTs: Option<real>): (rows: seq<seq<string>>)
    ensures |rows| == |packets| + 1 && rows[0] == AllQuoted(ColumnNames)
    ensures forall i :: 0 <= i < |packets| ==> rows[i + 1] == RowCells(fmt, packets[i], firstTs)
  {
    [AllQuoted(ColumnNames)] + seq(|packets|, i requires 0 <= i < |packets| => RowCells(fmt, packets[i], firstTs))
  }

  method ExportCsv(out: Output, fmt: TimeFormat, store: PacketStore, indices: Option<seq<nat>>, firstTs: Option<real>)
    returns (count: nat)
    modifies out
    ensures out.text == old(out.text) + Lines(Sheet(fmt, Visited(store.packets, indices), firstTs))
    ensures count == |Visited(store.packets, indices)|
  {
    hide *;
    ghost var all := Visited(store.packets, indices);
    out.Write(Line(AllQuoted(ColumnNames)));
    FirstLines(fmt, all, firstTs);
    count := 0;
    var it := new PacketIter(store, indices);
    while true
      invariant it.Valid() && fresh(it) && it.store == store && store.packets == old(store.packets)
      invariant count <= |all| && it.Remaining() == all[count..]
      invariant out.text == old(out.text) + FirstLinesOf(fmt, all, firstTs, count)
      decreases |all| - count
    {
      var p := it.Next();
      if p.None? { break; }
      assert all[count] == p.value;
      out.Write(Line(RowCells(fmt, p.value, firstTs)));
      NextLine(fmt, all, firstTs, count);
      count := count + 1;
    }
  }

  /** The header line and those of the first `count` packets. */
  ghost function FirstLinesOf(fmt: TimeFormat, packets: seq<Packet>, firstTs: Option<real>, count: nat): (s: string)
    requires count <= |packets|
  {
    Lines(Sheet(fmt, packets, firstTs)[..count + 1])
  }

  lemma FirstLines(fmt: TimeFormat, packets: seq<Packet>, firstTs: Option<real>)
    ensures FirstLinesOf(fmt, packets, firstTs, 0) == Line(AllQuoted(ColumnNames))
    ensures FirstLinesOf(fmt, packets, firstTs, |packets|) == Lines(Sheet(fmt, packets, firstTs))
  {
    hide Line, ColumnNames, Sheet;
    var sheet := Sheet(fmt, packets, firstTs);
    assert sheet[..1] == [sheet[0]] && sheet[..|packets| + 1] == sheet;
    LinesOfOne(sheet[0]);
  }

  lemma NextLine(fmt: TimeFormat, packets: seq<Packet>, firstTs: Option<real>, count: nat)
    requires count < |packets|
    ensures FirstLinesOf(fmt, packets, firstTs, count + 1)
            == FirstLinesOf(fmt, packets, firstTs, count) + Line(RowCells(fmt, packets[count], firstTs))
  {
    hide Line, Lines, ColumnNames, Sheet, RowCells;
    var sheet := Sheet(fmt, packets, firstTs);
    assert sheet[..count + 2] == sheet[..count + 1] + [sheet[count + 1]];
    LinesAppend(sheet[..count + 1], sheet[count + 1]);
  }

  lemma LinesOfOne(row: seq<string>)
    ensures Lines([row]) == Line(row)
  {}

  lemma {:induction false} LinesAppend(rows: seq<seq<string>>, row: seq<string>)
    ensures Lines(rows + [row]) == Lines(rows) + Line(row)
  {
    if rows == [] {
      LinesOfOne(row);
      assert rows + [row] == [row];
    } else {
      assert (rows + [row])[1..] == rows[1..] + [row];
      LinesAppend(rows[1..], row);
    }
  }

  // ----- A reader for section 2 of RFC 4180, with LF as the line break -----

  /** The rest of a quoted field: two quotation marks stand for one, a single one ends the field. */
  function ReadQuoted(s: string, i: nat): (r: Option<Read<string>>)
    requires i <= |s|
    ensures r.Some? ==> i < r.value.next <= |s|
    decreases |s| - i
  {
    if i == |s| then None
    else if s[i] == '"' && (i + 1 == |s| || s[i + 1] != '"') then Some(Read("", i + 1))
    else
      var skip := if s[i] == '"' then 2 else 1;
      match ReadQuoted(s, i + skip)
      case None => None
      case Some(rest) => Some(Read([s[i]] + rest.value, rest.next))
  }

  /** A field without quotation marks, up to a comma, a line break or the end. */
  function ReadPlain(s: string, i: nat): (r: Option<Read<string>>)
    requires i <= |s|
    ensures r.Some? ==> i <= r.value.next <= |s|
    decreases |s| - i
  {
    if i == |s| || s[i] == ',' || s[i] == '\n' then Some(Read("", i))
    else if s[i] == '"' || s[i] == '\r' then None
    else
      match ReadPlain(s, i + 1)
      case None => None
      case Some(rest) => Some(Read([s[i]] + rest.value, rest.next))
  }

  function ReadField(s: string, i: nat): (r: Option<Read<string>>)
    requires i <= |s|
    ensures r.Some? ==> i <= r.value.next <= |s|
  {
    if i < |s| && s[i] == '"' then ReadQuoted(s, i + 1) else ReadPlain(s, i)
  }

  /** The fields of one record, and the position behind its line break. */
  function ReadRecord(s: string, i: nat): (r: Option<Read<seq<string>>>)
    requires i <= |s|
    ensures r.Some? ==> i <= r.value.next <= |s| && (i < |s| ==> i < r.value.next)
    decreases |s| - i
  {
    match ReadField(s, i)
    case None => None
    case Some(field) =>
      if field.next == |s| then Some(Read([field.value], field.next))
      else if s[field.next] == '\n' then Some(Read([field.value], field.next + 1))
      else if s[field.next] == ',' then
        match ReadRecord(s, field.next + 1)
        case None => None
        case Some(rest) => Some(Read([field.value] + rest.value, rest.next))
      else None
  }

  function ReadRecords(s: string, i: nat): (r: Option<seq<seq<string>>>)
    requires i <= |s|
    decreases |s| - i
  {
    if i == |s| then Some([])
    else
      match ReadRecord(s, i)
      case None => None
      case Some(record) =>
        match ReadRecords(s, record.next)
        case None => None
        case Some(rest) => Some([record.value] + rest)
  }

  // ----- The reader recovers every field -----

  /** The cell is one of the two ways to write the field. */
  predicate Writes(cell: string, field: string) {
    cell == Quoted(field) || (cell == field && IsPlain(field))
  }

  predicate WritesAll(cells: seq<string>, fields: seq<string>) {
    |cells| == |fields| && |fields| > 0 && forall i :: 0 <= i < |fields| ==> Writes(cells[i], fields[i])
  }

  lemma {:induction false} QuotedReads(f: string, s: string, i: nat)
    requires StandsAt(DoubleQuotes(f) + "\"", s, i)
    requires var end := i + |DoubleQuotes(f)| + 1; end == |s| || s[end] != '"'
    ensures ReadQuoted(s, i) == Some(Read(f, i + |DoubleQuotes(f)| + 1))
    decreases |f|
  {
    hide StandsAt;
    if f == "" {
      assert DoubleQuotes(f) + "\"" == "\"";
      StandsElement("\"", s, i, 0);
    } else {
      var head := if f[0] == '"' then "\"\"" else [f[0]];
      var rest := DoubleQuotes(f[1..]);
      assert DoubleQuotes(f) == head + rest;
      Regroup(head, rest, "\"");
      StandsApart(head, rest + "\"", s, i);
      StandsElement(head, s, i, 0);
      StandsElement(head, s, i, |head| - 1);
      StandsWithin(rest + "\"", s, i + |head|);
      QuotedReads(f[1..], s, i + |head|);
      assert [f[0]] + f[1..] == f;
    }
  }

  lemma {:induction false} PlainReads(f: string, s: string, i: nat)
    requires IsPlain(f) && StandsAt(f, s, i)
    requires i + |f| < |s| && (s[i + |f|] == ',' || s[i + |f|] == '\n')
    ensures ReadPlain(s, i) == Some(Read(f, i + |f|))
    decreases |f|
  {
    if f != "" {
      assert f == [f[0]] + f[1..];
      StandsApart([f[0]], f[1..], s, i);
      PlainReads(f[1..], s, i + 1);
    }
  }

  lemma FieldReads(cell: string, field: string, s: string, i: nat)
    requires Writes(cell, field) && StandsAt(cell, s, i)
    requires i + |cell| < |s| && (s[i + |cell|] == ',' || s[i + |cell|] == '\n')
    ensures ReadField(s, i) == Some(Read(field, i + |cell|))
  {
    if cell == Quoted(field) {
      assert cell == "\"" + (DoubleQuotes(field) + "\"");
      StandsApart("\"", DoubleQuotes(field) + "\"", s, i);
      QuotedReads(field, s, i + 1);
    } else {
      assert s[i] != '"' by {
        if field != "" { assert s[i] == s[i..i + |cell|][0]; }
      }
      PlainReads(field, s, i);
    }
  }

  /** Where a line stands, its first cell, a separator and the rest of the line follow each other. */
  lemma LineStands(cells: seq<string>, s: string, i: nat)
    requires cells != [] && StandsAt(Line(cells), s, i)
    ensures var end := i + |cells[0]|;
            && end < |s| && StandsAt(cells[0], s, i)
            && (if |cells| == 1 then s[end] == '\n' && |Line(cells)| == |cells[0]| + 1
                else s[end] == ',' && StandsAt(Line(cells[1..]), s, end + 1)
                     && |Line(cells)| == |cells[0]| + 1 + |Line(cells[1..])|)
  {
    var end := i + |cells[0]|;
    if |cells| == 1 {
      StandsApart(cells[0], "\n", s, i);
      StandsApart("\n", "", s, end);
    } else {
      hide Line;
      LineFromFirst(cells);
      StandsApart(cells[0], "," + Line(cells[1..]), s, i);
      StandsApart(",", Line(cells[1..]), s, end);
    }
  }

  lemma LineFromFirst(cells: seq<string>)
    requires |cells| > 1
    ensures Line(cells) == cells[0] + ("," + Line(cells[1..]))
  {
    assert cells[0] + "," + Line(cells[1..]) == cells[0] + ("," + Line(cells[1..]));
  }

  lemma WritesRest(cells: seq<string>, fields: seq<string>)
    requires WritesAll(cells, fields)
    ensures |cells| == |fields| > 0 && Writes(cells[0], fields[0])
    ensures |cells| == 1 ==> fields == [fields[0]]
    ensures |cells| > 1 ==> WritesAll(cells[1..], fields[1..]) && fields == [fields[0]] + fields[1..]
  {}

  lemma RecordStep(s: string, i: nat, field: string, end: nat)
    requires i <= end < |s| && ReadField(s, i) == Some(Read(field, end))
    ensures s[end] == '\n' ==> ReadRecord(s, i) == Some(Read([field], end + 1))
    ensures s[end] == ',' && ReadRecord(s, end + 1).Some? ==>
              var rest := ReadRecord(s, end + 1).value;
              ReadRecord(s, i) == Some(Read([field] + rest.value, rest.next))
  {}

  lemma {:induction false} RecordReads(cells: seq<string>, fields: seq<string>, s: string, i: nat)
    requires WritesAll(cells, fields) && StandsAt(Line(cells), s, i)
    ensures ReadRecord(s, i) == Some(Read(fields, i + |Line(cells)|))
    decreases |cells|
  {
    hide *;
    WritesRest(cells, fields);
    LineStands(cells, s, i);
    var end := i + |cells[0]|;
    FieldReads(cells[0], fields[0], s, i);
    RecordStep(s, i, fields[0], end);
    if |cells| > 1 {
      RecordReads(cells[1..], fields[1..], s, end + 1);
    }
  }

  /** Whatever rows are written, and whichever way each of their fields is, the reader recovers all fields of all rows. */
  lemma {:induction false} RecordsRead(rows: seq<seq<string>>, texts: seq<seq<string>>, s: string, i: nat)
    requires |rows| == |texts| && forall k :: 0 <= k < |rows| ==> WritesAll(rows[k], texts[k])
    requires StandsAt(Lines(rows), s, i) && i + |Lines(rows)| == |s|
    ensures ReadRecords(s, i) == Some(texts)
    decreases |rows|
  {
    hide StandsAt, WritesAll, Line, ReadRecord;
    if rows == [] {
      assert Lines(rows) == "";
    } else {
      StandsApart(Line(rows[0]), Lines(rows[1..]), s, i);
      RecordReads(rows[0], texts[0], s, i);
      LineNotEmpty(rows[0]);
      RecordsRead(rows[1..], texts[1..], s, i + |Line(rows[0])|);
      assert [texts[0]] + texts[1..] == texts;
    }
  }

  lemma LineNotEmpty(cells: seq<string>)
    ensures |Line(cells)| > 0
  {}

  lemma NumeralIsPlain(s: string)
    requires IsNumeral(s)
    ensures IsPlain(s)
  {}

  lemma DecimalIsPlain(n: nat)
    ensures IsPlain(Decimal(n))
  {}

  lemma RowWrites(fmt: TimeFormat, p: Packet, firstTs: Option<real>)
    requires fmt.Lawful()
    ensures WritesAll(RowCells(fmt, p, firstTs), RowFields(fmt, p, firstTs))
  {
    hide IsPlain, Quoted;
    NumeralIsPlain(fmt.seconds(p.timestamp));
    DecimalIsPlain(p.index + 1);
    DecimalIsPlain(p.originalLength);
    OptDecimalIsPlain(p.srcPort);
    OptDecimalIsPlain(p.dstPort);
  }

  lemma OptDecimalIsPlain(n: Option<nat>)
    ensures IsPlain(OptDecimal(n))
  {
    if n.Some? { DecimalIsPlain(n.value); }
  }

  /** The header and what every row says. */
  function SheetFields(fmt: TimeFormat, packets: seq<Packet>, firstTs: Option<real>): (rows: seq<seq<string>>)
    ensures |rows| == |packets| + 1 && rows[0] == ColumnNames
    ensures forall i :: 0 <= i < |packets| ==> rows[i + 1] == RowFields(fmt, packets[i], firstTs)
  {
    [ColumnNames] + seq(|packets|, i requires 0 <= i < |packets| => RowFields(fmt, packets[i], firstTs))
  }

  /** A reader of RFC 4180 recovers the header and every field of every row of an exported document. */
  lemma ExportReadsBack(fmt: TimeFormat, packets: seq<Packet>, firstTs: Option<real>)
    requires fmt.Lawful()
    ensures ReadRecords(Lines(Sheet(fmt, packets, firstTs)), 0) == Some(SheetFields(fmt, packets, firstTs))
  {
    hide *;
    var cells, fields := Sheet(fmt, packets, firstTs), SheetFields(fmt, packets, firstTs);
    forall k | 0 <= k < |cells| ensures WritesAll(cells[k], fields[k]) {
      SheetRowWrites(fmt, packets, firstTs, k);
    }
    StandsWhole(Lines(cells));
    RecordsRead(cells, fields, Lines(cells), 0);
  }

  lemma SheetRowWrites(fmt: TimeFormat, packets: seq<Packet>, firstTs: Option<real>, k: nat)
    requires fmt.Lawful() && k <= |packets|
    ensures WritesAll(Sheet(fmt, packets, firstTs)[k], SheetFields(fmt, packets, firstTs)[k])
  {
    hide Sheet, SheetFields, RowCells, RowFields, Quoted, IsPlain;
    if k > 0 { RowWrites(fmt, packets[k - 1], firstTs); }
  }

  // ----- What stands under which heading -----

  /** What the export says of a packet under a heading. */
  ghost function Said(fmt: TimeFormat, p: Packet, firstTs: Option<real>, heading: string): (text: string) {
    match heading
    case "No." => Decimal(p.index + 1)
    case "Time" => fmt.seconds(p.timestamp)
    case "Absolute Time" => if firstTs.Some? then fmt.iso(firstTs.value + p.timestamp) else ""
    case "Source" => p.source
    case "Destination" => p.destination
    case "Protocol" => p.protocol.display
    case "Length" => Decimal(p.originalLength)
    case "SrcPort" => if p.srcPort.Some? then Decimal(p.srcPort.value) else ""
    case "DstPort" => if p.dstPort.Some? then Decimal(p.dstPort.value) else ""
    case "Info" => p.info
    case "PfAction" => if HasPflog(p) then p.linkMeta.value.action else ""
    case "PfDirection" => if HasPflog(p) then p.linkMeta.value.direction else ""
    case "PfInterface" => if HasPflog(p) then p.linkMeta.value.ifname else ""
    case "PfRule" => if HasPflog(p) then Decimal(p.linkMeta.value.ruleNumber) else ""
    case "PfReason" => if HasPflog(p) then p.linkMeta.value.reason else ""
    case "EncSpi" => if HasEnc(p) then "0x" + Hex(p.linkMeta.value.spi, 8) else ""
    case "EncFlags" => if HasEnc(p) then p.linkMeta.value.flagsText else ""
    case _ => ""
  }

  predicate HasPflog(p: Packet) {
    p.linkMeta.Some? && p.linkMeta.value.Pflog?
  }

  predicate HasEnc(p: Packet) {
    p.linkMeta.Some? && p.linkMeta.value.Enc?
  }

  /** Every row says under each heading what the heading names, and has no more fields than there are headings. */
  lemma RowsFitHeadings(fmt: TimeFormat, p: Packet, firstTs: Option<real>)
    ensures var fields := RowFields(fmt, p, firstTs);
            |fields| == |ColumnNames| && forall k :: 0 <= k < |fields| ==> fields[k] == Said(fmt, p, firstTs, ColumnNames[k])
  {
    var fields := RowFields(fmt, p, firstTs);
    forall k | 0 <= k < |fields| ensures fields[k] == Said(fmt, p, firstTs, ColumnNames[k]) {
      if k < 10 { FirstFieldsFit(fmt, p, firstTs, k); } else { MetaFieldsFit(fmt, p, firstTs, k); }
    }
  }

  lemma FirstFieldsFit(fmt: TimeFormat, p: Packet, firstTs: Option<real>, k: nat)
    requires k < 10
    ensures RowFields(fmt, p, firstTs)[k] == Said(fmt, p, firstTs, ColumnNames[k])
  {
    hide Decimal, Hex;
  }

  lemma MetaFieldsFit(fmt: TimeFormat, p: Packet, firstTs: Option<real>, k: nat)
    requires 10 <= k < 17
    ensures RowFields(fmt, p, firstTs)[k] == Said(fmt, p, firstTs, ColumnNames[k])
  {
    hide Decimal, Hex;
    assert RowFields(fmt, p, firstTs)[k] == MetaFields(p.linkMeta)[k - 10];
  }

  // ----- The lines of the command-line tool -----

  const CliColumnNames: seq<string> :=
    ["No", "Time", "Source", "Destination", "Protocol", "Length", "Info", "Process", "Path"]

  /** A packet as the command-line tool writes it, with its process and kernel path as texts, empty if not known. */
  datatype CliEntry = CliEntry(packet: Packet, process: string, path: string)

  function CliFields(fmt: TimeFormat, e: CliEntry): (fields: seq<string>) {
    [Decimal(e.packet.index + 1), fmt.seconds(e.packet.timestamp), e.packet.source, e.packet.destination,
     e.packet.protocol.display, Decimal(e.packet.originalLength), e.packet.info, e.process, e.path]
  }

  /** Here every text is quoted, whether it needs it or not. */
  function CliCells(fmt: TimeFormat, e: CliEntry): (cells: seq<string>) {
    [Decimal(e.packet.index + 1), fmt.seconds(e.packet.timestamp), Quoted(e.packet.source), Quoted(e.packet.destination),
     Quoted(e.packet.protocol.display), Decimal(e.packet.originalLength), Quoted(e.packet.info), Quoted(e.process),
     Quoted(e.path)]
  }

  /** The header, which is not quoted, and the lines. */
  function CliSheet(fmt: TimeFormat, entries: seq<CliEntry>): (rows: seq<seq<string>>)
    ensures |rows| == |entries| + 1 && rows[0] == CliColumnNames
    ensures forall i :: 0 <= i < |entries| ==> rows[i + 1] == CliCells(fmt, entries[i])
  {
    [CliColumnNames] + seq(|entries|, i requires 0 <= i < |entries| => CliCells(fmt, entries[i]))
  }

  function CliSheetFields(fmt: TimeFormat, entries: seq<CliEntry>): (rows: seq<seq<string>>)
    ensures |rows| == |entries| + 1 && rows[0] == CliColumnNames
    ensures forall i :: 0 <= i < |entries| ==> rows[i + 1] == CliFields(fmt, entries[i])
  {
    [CliColumnNames] + seq(|entries|, i requires 0 <= i < |entries| => CliFields(fmt, entries[i]))
  }

  lemma CliRowWrites(fmt: TimeFormat, e: CliEntry)
    requires fmt.Lawful()
    ensures WritesAll(CliCells(fmt, e), CliFields(fmt, e))
  {
    hide IsPlain, Quoted;
    NumeralIsPlain(fmt.seconds(e.packet.timestamp));
    DecimalIsPlain(e.packet.index + 1);
    DecimalIsPlain(e.packet.originalLength);
  }

  lemma CliHeaderWrites()
    ensures WritesAll(CliColumnNames, CliColumnNames)
  {
    hide IsPlain, Quoted;
    forall k | 0 <= k < |CliColumnNames| ensures IsPlain(CliColumnNames[k]) { CliNameIsPlain(k); }
  }

  lemma CliNameIsPlain(k: nat)
    requires k < |CliColumnNames|
    ensures IsPlain(CliColumnNames[k])
  {}

  /** The same reader recovers the header and every field of every line of the command-line tool. */
  lemma CliReadsBack(fmt: TimeFormat, entries: seq<CliEntry>)
    requires fmt.Lawful()
    ensures ReadRecords(Lines(CliSheet(fmt, entries)), 0) == Some(CliSheetFields(fmt, entries))
  {
    hide *;
    var cells, fields := CliSheet(fmt, entries), CliSheetFields(fmt, entries);
    forall k | 0 <= k < |cells| ensures WritesAll(cells[k], fields[k]) {
      if k > 0 { CliRowWrites(fmt, entries[k - 1]); } else { CliHeaderWrites(); }
    }
    StandsWhole(Lines(cells));
    RecordsRead(cells, fields, Lines(cells), 0);
  }

  /** What the command-line tool says under a heading. */
  ghost function CliSaid(fmt: TimeFormat, e: CliEntry, heading: string): (text: string) {
    match heading
    case "No" => Decimal(e.packet.index + 1)
    case "Time" => fmt.seconds(e.packet.timestamp)
    case "Source" => e.packet.source
    case "Destination" => e.packet.destination
    case "Protocol" => e.packet.protocol.display
    case "Length" => Decimal(e.packet.originalLength)
    case "Info" => e.packet.info
    case "Process" => e.process
    case "Path" => e.path
    case _ => ""
  }

  lemma CliLinesFitHeadings(fmt: TimeFormat, e: CliEntry)
    ensures var fields := CliFields(fmt, e);
            |fields| == |CliColumnNames| && forall k :: 0 <= k < |fields| ==> fields[k] == CliSaid(fmt, e, CliColumnNames[k])
  {
    hide Decimal;
  }
}
