/**
  The nuclide mass table (src/MassLookup.cpp): ground-state masses keyed by
  the text "(Z,A)" and element symbols keyed by Z, read once from the AMDC
  mass file. The program keeps it as a global; here it is a value that is
  loaded once and passed to whoever needs it.
 */
module MassLookup {
  import opened Wrappers
  import opened Decimal
  import opened TextStream
  import LastWins

  /** Atomic mass unit in MeV. */
  const U_TO_MEV: real := 931.4940954
  /** Electron mass in atomic mass units. */
  const ELECTRON_MASS: real := 0.000548579909

  /** What one pass of the read loop extracts: Z, the A token as text, the symbol, the two mass parts. */
  datatype MassRecord = MassRecord(z: int, a: string, element: string, big: real, small: real)

  datatype MassTable = MassTable(masses: map<string, real>, elements: map<int, string>)

  /** The initial values of the loader's local variables. */
  const Blank: MassRecord := MassRecord(0, "", "", 0.0, 0.0)

  /** The table key "(Z,A)"; at insertion A is the token text, at lookup the rendered integer. */
  function Key(z: int, a: string): string
  {
    "(" + IntToString(z) + "," + a + ")"
  }

  /** Nuclear mass in MeV: atomic mass in u (integer part plus micro-u part) less Z electrons. */
  function NuclearMass(z: int, big: real, small: real): real
  {
    (big + small * 0.000001 - z as real * ELECTRON_MASS) * U_TO_MEV
  }

  function RecordKey(r: MassRecord): string { Key(r.z, r.a) }
  function RecordMass(r: MassRecord): real { NuclearMass(r.z, r.big, r.small) }
  function RecordZ(r: MassRecord): int { r.z }
  function RecordElement(r: MassRecord): string { r.element }

  /** The tables after inserting `recs` in order. */
  function TableOf(recs: seq<MassRecord>): MassTable
  {
    MassTable(LastWins.Build(recs, RecordKey, RecordMass), LastWins.Build(recs, RecordZ, RecordElement))
  }

  /** `file >> Z >> A >> element >> big >> small`, each variable keeping its old value if its read fails. */
  function ReadRecordFields(s: Stream, prev: MassRecord): Read<MassRecord>
  {
    var z := ReadInt(s, prev.z);
    var a := ReadText(z.stream, prev.a);
    var element := ReadText(a.stream, prev.element);
    var big := ReadReal(element.stream, prev.big);
    var small := ReadReal(big.stream, prev.small);
    Read(small.stream, MassRecord(z.value, a.value, element.value, big.value, small.value))
  }

  /**
    The record loop: `while (file >> junk) { file >> Z >> A >> element >> big >> small; ... }`.
    A record cut short keeps the previous record's values for the fields it
    could not read, exactly as the loop's variables do, and is still inserted.
   */
  function ReadRecords(s: Stream, prev: MassRecord): seq<MassRecord>
    decreases Size(s.rest)
  {
    var junk := ReadText(s, "");
    if !junk.stream.ok then []
    else
      var rec := ReadRecordFields(junk.stream, prev);
      ReadsAdvance(s);
      RecordFieldsAdvance(junk.stream, prev);
      [rec.value] + ReadRecords(rec.stream, rec.value)
  }

  /** Reading the fields of a record moves the stream forward. */
  lemma RecordFieldsAdvance(s: Stream, prev: MassRecord)
    ensures Size(ReadRecordFields(s, prev).stream.rest) <= Size(s.rest)
  {
    var z := ReadInt(s, prev.z);
    var a := ReadText(z.stream, prev.a);
    var element := ReadText(a.stream, prev.element);
    var big := ReadReal(element.stream, prev.big);
    ReadsAdvance(s);
    ReadsAdvance(z.stream);
    ReadsAdvance(a.stream);
    ReadsAdvance(element.stream);
    ReadsAdvance(big.stream);
  }

  /** One pass of the record loop extends the records read so far by one. */
  lemma ReadRecordsStep(done: seq<MassRecord>, s: Stream, prev: MassRecord, start: Stream)
    requires done + ReadRecords(s, prev) == ReadRecords(start, Blank)
    requires ReadText(s, "").stream.ok
    ensures var fields := ReadRecordFields(ReadText(s, "").stream, prev);
      (done + [fields.value]) + ReadRecords(fields.stream, fields.value) == ReadRecords(start, Blank)
  {
    var fields := ReadRecordFields(ReadText(s, "").stream, prev);
    assert ReadRecords(s, prev) == [fields.value] + ReadRecords(fields.stream, fields.value);
    assert (done + [fields.value]) + ReadRecords(fields.stream, fields.value)
        == done + ([fields.value] + ReadRecords(fields.stream, fields.value));
  }

  /** One pass of the record loop: one more record read, and both tables extended by it. */
  lemma RecordLoopStep(done: seq<MassRecord>, s: Stream, prev: MassRecord, start: Stream)
    requires done + ReadRecords(s, prev) == ReadRecords(start, Blank)
    requires ReadText(s, "").stream.ok
    ensures var r := ReadRecordFields(ReadText(s, "").stream, prev).value;
      && LastWins.Build(done + [r], RecordKey, RecordMass) == LastWins.Build(done, RecordKey, RecordMass)[Key(r.z, r.a) := NuclearMass(r.z, r.big, r.small)]
      && LastWins.Build(done + [r], RecordZ, RecordElement) == LastWins.Build(done, RecordZ, RecordElement)[r.z := r.element]
    ensures var fields := ReadRecordFields(ReadText(s, "").stream, prev);
      (done + [fields.value]) + ReadRecords(fields.stream, fields.value) == ReadRecords(start, Blank)
  {
    var r := ReadRecordFields(ReadText(s, "").stream, prev).value;
    ReadRecordsStep(done, s, prev, start);
    LastWins.BuildSnoc(done, r, RecordKey, RecordMass);
    LastWins.BuildSnoc(done, r, RecordZ, RecordElement);
  }

  /** When no token is left for the ignored first field, the loop has read every record. */
  lemma ReadRecordsDone(done: seq<MassRecord>, s: Stream, prev: MassRecord, start: Stream)
    requires done + ReadRecords(s, prev) == ReadRecords(start, Blank)
    requires !ReadText(s, "").stream.ok
    ensures done == ReadRecords(start, Blank)
  {
    assert ReadRecords(s, prev) == [];
    assert done + [] == done;
  }

  /** The table a mass file yields; `None` is a file that cannot be opened. Two header lines are skipped. */
  function Load(file: Option<seq<Line>>): MassTable
  {
    match file
    case None => MassTable(map[], map[])
    case Some(lines) => TableOf(ReadRecords(GetLine(GetLine(Open(lines))), Blank))
  }

  /** The constructor's loop (src/MassLookup.cpp:19-36), inserting record by record. */
  method LoadMassTable(file: Option<seq<Line>>) returns (t: MassTable)
    ensures t == Load(file)
    ensures file.None? ==> t.masses == map[] && t.elements == map[]
  {
    if file.None? {
      return MassTable(map[], map[]);
    }
    var s := GetLine(GetLine(Open(file.value)));
    ghost var start := s;
    var masses: map<string, real> := map[];
    var elements: map<int, string> := map[];
    var rec := Blank;
    ghost var done: seq<MassRecord> := [];
    while true
      invariant done + ReadRecords(s, rec) == ReadRecords(start, Blank)
      invariant masses == LastWins.Build(done, RecordKey, RecordMass)
      invariant elements == LastWins.Build(done, RecordZ, RecordElement)
      decreases Size(s.rest)
    {
      var junk := ReadText(s, "");
      if !junk.stream.ok {
        break;
      }
      var fields := ReadRecordFields(junk.stream, rec);
      ReadsAdvance(s);
      RecordFieldsAdvance(junk.stream, rec);
      RecordLoopStep(done, s, rec, start);
      rec := fields.value;
      masses := masses[Key(rec.z, rec.a) := NuclearMass(rec.z, rec.big, rec.small)];
      elements := elements[rec.z := rec.element];
      done := done + [rec];
      s := fields.stream;
    }
    ReadRecordsDone(done, s, rec, start);
    t := MassTable(masses, elements);
  }

  /** `FindMass(Z, A)`: the stored mass, or 1 when "(Z,A)" is not in the table. */
  function FindMass(t: MassTable, z: int, a: int): (m: real)
  {
    var key := Key(z, IntToString(a));
    if key in t.masses then t.masses[key] else 1.0
  }

  /** `FindElement(Z)`: the stored symbol, or "void" when Z is not in the table. */
  function FindElement(t: MassTable, z: int): (sym: string)
  {
    if z in t.elements then t.elements[z] else "void"
  }

  /** A key is "(", the digits of Z (none of them a comma), ",", the A text and ")". */
  lemma KeyParts(z: int, a: string)
    ensures var s, k := IntToString(z), Key(z, a);
            && |k| == |s| + |a| + 3
            && k[1..1 + |s|] == s && k[1 + |s|] == ',' && k[2 + |s|..|k| - 1] == a
            && forall i :: 1 <= i <= |s| ==> k[i] != ','
  {
    IntDigits(z);
    var s, k := IntToString(z), Key(z, a);
    assert k == "(" + s + "," + a + ")";
    assert forall i :: 0 <= i < |s| ==> k[1 + i] == s[i];
  }

  /** Two keys agree exactly when their Z and their A text agree. */
  lemma KeyInjective(z1: int, a1: string, z2: int, a2: string)
    ensures Key(z1, a1) == Key(z2, a2) <==> z1 == z2 && a1 == a2
  {
    var s1, s2 := IntToString(z1), IntToString(z2);
    var k1, k2 := Key(z1, a1), Key(z2, a2);
    if k1 == k2 {
      KeyParts(z1, a1);
      KeyParts(z2, a2);
      assert s1 == s2;
      IntToStringInjective(z1, z2);
    }
  }

  /** A record "matches" a lookup of (Z, A) when its Z is Z and its A token reads as A's decimal text. */
  predicate Matches(r: MassRecord, z: int, a: int)
  {
    r.z == z && r.a == IntToString(a)
  }

  /** After loading `recs`, FindMass(Z, A) is the mass of the last record for (Z, A). */
  lemma FindMassHit(recs: seq<MassRecord>, z: int, a: int, i: nat)
    requires i < |recs| && Matches(recs[i], z, a)
    requires forall j :: i < j < |recs| ==> !Matches(recs[j], z, a)
    ensures FindMass(TableOf(recs), z, a) == NuclearMass(z, recs[i].big, recs[i].small)
  {
    forall j | i < j < |recs|
      ensures RecordKey(recs[j]) != RecordKey(recs[i])
    {
      KeyInjective(recs[j].z, recs[j].a, z, IntToString(a));
    }
    LastWins.LastWriteWins(recs, RecordKey, RecordMass, i);
  }

  /** After loading `recs`, FindMass(Z, A) is exactly 1 when no record is for (Z, A). */
  lemma FindMassMiss(recs: seq<MassRecord>, z: int, a: int)
    requires forall j :: 0 <= j < |recs| ==> !Matches(recs[j], z, a)
    ensures FindMass(TableOf(recs), z, a) == 1.0
  {
    forall j | 0 <= j < |recs|
      ensures RecordKey(recs[j]) != Key(z, IntToString(a))
    {
      KeyInjective(recs[j].z, recs[j].a, z, IntToString(a));
    }
    LastWins.Absent(recs, RecordKey, RecordMass, Key(z, IntToString(a)));
  }

  /** After loading `recs`, FindElement(Z) is the symbol of the last record with that Z, else "void". */
  lemma FindElementOfRecords(recs: seq<MassRecord>, z: int)
    ensures (forall j :: 0 <= j < |recs| ==> recs[j].z != z) ==> FindElement(TableOf(recs), z) == "void"
    ensures forall i :: 0 <= i < |recs| && recs[i].z == z && (forall j :: i < j < |recs| ==> recs[j].z != z)
              ==> FindElement(TableOf(recs), z) == recs[i].element
  {
    if forall j :: 0 <= j < |recs| ==> recs[j].z != z {
      LastWins.Absent(recs, RecordZ, RecordElement, z);
    }
    forall i | 0 <= i < |recs| && recs[i].z == z && (forall j :: i < j < |recs| ==> recs[j].z != z)
      ensures FindElement(TableOf(recs), z) == recs[i].element
    {
      LastWins.LastWriteWins(recs, RecordZ, RecordElement, i);
    }
  }

  /** A line of the mass file that holds exactly the record `r` (the first token is the ignored one). */
  predicate RecordLine(line: Line, r: MassRecord)
  {
    && |line| == 6
    && line[1].asInt == Some(r.z)
    && line[2].text == r.a
    && line[3].text == r.element
    && line[4].asReal == Some(r.big)
    && line[5].asReal == Some(r.small)
  }

  /** Reading the five fields of a record line leaves the stream at the end of that line. */
  lemma ReadRecordLine(l: Line, more: seq<Line>, r: MassRecord, prev: MassRecord)
    requires RecordLine(l, r)
    ensures ReadRecordFields(Stream([l[1..]] + more, true), prev) == Read(Stream([[]] + more, true), r)
  {
    assert l[1..] == [l[1]] + l[2..] && l[2..] == [l[2]] + l[3..] && l[3..] == [l[3]] + l[4..];
    assert l[4..] == [l[4]] + l[5..] && l[5..] == [l[5]] + [];
    ReadsAtHead(l[1], l[2..], more);
    ReadsAtHead(l[2], l[3..], more);
    ReadsAtHead(l[3], l[4..], more);
    ReadsAtHead(l[4], l[5..], more);
    ReadsAtHead(l[5], [], more);
  }

  /** A record line at the head of the file is read as that record, and reading goes on at the next line. */
  lemma ReadRecordLinesStep(lines: seq<Line>, r: MassRecord, prev: MassRecord)
    requires |lines| > 0 && RecordLine(lines[0], r)
    ensures ReadRecords(Open(lines), prev) == [r] + ReadRecords(Open(lines[1..]), r)
  {
    var l, more := lines[0], lines[1..];
    assert l == [l[0]] + l[1..];
    assert lines == [[l[0]] + l[1..]] + more;
    ReadsAtHead(l[0], l[1..], more);
    ReadRecordLine(l, more, r, prev);
    SkipsExhaustedLine(more);
    assert ReadText(Stream([[]] + more, true), "") == ReadText(Open(more), "");
    assert ReadRecords(Stream([[]] + more, true), r) == ReadRecords(Open(more), r);
  }

  lemma {:induction false} ReadRecordLines(lines: seq<Line>, recs: seq<MassRecord>, prev: MassRecord)
    requires |lines| == |recs|
    requires forall i :: 0 <= i < |lines| ==> RecordLine(lines[i], recs[i])
    ensures ReadRecords(Open(lines), prev) == recs
  {
    if lines != [] {
      ReadRecordLinesStep(lines, recs[0], prev);
      ReadRecordLines(lines[1..], recs[1..], recs[0]);
    }
  }

  /** A well-formed mass file: any two header lines, then one line per record. It loads exactly `recs`. */
  lemma WellFormedFileLoads(lines: seq<Line>, recs: seq<MassRecord>)
    requires |lines| == 2 + |recs|
    requires forall i :: 0 <= i < |recs| ==> RecordLine(lines[2 + i], recs[i])
    ensures Load(Some(lines)) == TableOf(recs)
  {
    assert GetLine(GetLine(Open(lines))) == Open(lines[2..]);
    ReadRecordLines(lines[2..], recs, Blank);
  }
}
