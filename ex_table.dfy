/**
  The excitation table (src/ExTable.cpp): for each residual-nucleus symbol,
  the list of its excitation energies and, index for index, the text each
  energy was read from. The file is a stream of blocks `symbol e1 e2 ... end`.
 */
module ExTable {
  import opened Wrappers
  import opened TextStream
  import LastWins

  datatype ExData = ExData(exList: seq<real>, strList: seq<string>)

  type Table = map<string, ExData>

  /**
    What the constructor's loops end with. `Hangs`: a block cut off by the end
    of the file whose last value is a number makes the inner `while (true)`
    append that value forever. `Throws`: `std::stod` is handed text that is not
    a number and throws.
   */
  datatype Load = Loaded(table: Table) | Hangs | Throws

  /** Outcome of the inner loop: the stream after `end`, the block's lists and the last text read. */
  datatype Block = Ended(stream: Stream, data: ExData, text: Token) | BlockHangs | BlockThrows

  /** The `text` variable before anything is read: empty, which `stod` rejects. */
  const NoText: Token := Token("", None, None)

  const EmptyData: ExData := ExData([], [])

  predicate Parallel(d: ExData)
  {
    |d.exList| == |d.strList|
  }

  /** Every entry's energy list and text list have the same length. */
  ghost predicate WellFormed(t: Table)
  {
    forall e :: e in t ==> Parallel(t[e])
  }

  /** The inner loop (src/ExTable.cpp:28-33), with `temp` holding what the block has read so far. */
  function ReadBlock(s: Stream, text: Token, temp: ExData): (b: Block)
    ensures b.Ended? ==> Size(b.stream.rest) <= Size(s.rest)
    decreases Size(s.rest)
  {
    ReadsAdvance(s);
    var rd := ReadToken(s, text);
    if rd.value.text == "end" then Ended(rd.stream, temp, rd.value)
    else if rd.value.asReal.None? then BlockThrows
    else if !rd.stream.ok then BlockHangs
    else ReadBlock(rd.stream, rd.value, ExData(temp.exList + [rd.value.asReal.value], temp.strList + [rd.value.text]))
  }

  /** The outer loop (src/ExTable.cpp:25-35) from stream `s`, the current `text` and the table so far. */
  function ParseFrom(s: Stream, text: Token, table: Table): Load
    decreases Size(s.rest)
  {
    ReadsAdvance(s);
    var element := ReadText(s, "");
    if !element.stream.ok then Loaded(table)
    else match ReadBlock(element.stream, text, EmptyData)
      case Ended(after, data, last) => ParseFrom(after, last, table[element.value := data])
      case BlockHangs => Hangs
      case BlockThrows => Throws
  }

  /** The table an excitation file yields; `None` is a file that cannot be opened. */
  function Parse(file: Option<seq<Line>>): Load
  {
    match file
    case None => Loaded(map[])
    case Some(lines) => ParseFrom(Open(lines), NoText, map[])
  }

  /**
    The constructor (src/ExTable.cpp:16-36). Where the C++ inner loop
    would spin forever this returns `Hangs`, and where `stod` would throw it
    returns `Throws`.
   */
  method LoadExTable(file: Option<seq<Line>>) returns (r: Load)
    ensures r == Parse(file)
  {
    if file.None? {
      return Loaded(map[]);
    }
    var s := Open(file.value);
    var table: Table := map[];
    var text := NoText;
    while true
      invariant ParseFrom(s, text, table) == Parse(file)
      decreases Size(s.rest)
    {
      ReadsAdvance(s);
      var element := ReadText(s, "");
      if !element.stream.ok {
        return Loaded(table);
      }
      s := element.stream;
      ghost var blockStart, textAtStart, sizeAtStart := s, text, Size(s.rest);
      var temp := EmptyData;
      while true
        invariant ReadBlock(s, text, temp) == ReadBlock(blockStart, textAtStart, EmptyData)
        invariant Size(s.rest) <= sizeAtStart
        decreases Size(s.rest)
      {
        ReadsAdvance(s);
        var rd := ReadToken(s, text);
        if rd.value.text == "end" {
          s, text := rd.stream, rd.value;
          break;
        }
        if rd.value.asReal.None? {
          return Throws;
        }
        if !rd.stream.ok {
          return Hangs;
        }
        s, text := rd.stream, rd.value;
        temp := ExData(temp.exList + [rd.value.asReal.value], temp.strList + [rd.value.text]);
      }
      table := table[element.value := temp];
    }
  }

  /** `GetListOfExcitations`: the stored energies, or the single placeholder 0 for an unknown symbol. */
  function GetListOfExcitations(t: Table, element: string): (r: seq<real>)
    ensures |r| >= 1 || element in t
  {
    if element in t then t[element].exList else [0.0]
  }

  /** `GetListOfExcitations_Strings`: the stored texts, or the single placeholder "" for an unknown symbol. */
  function GetListOfExcitationStrings(t: Table, element: string): (r: seq<string>)
    ensures |r| >= 1 || element in t
  {
    if element in t then t[element].strList else [""]
  }

  /** The lookups answer the stored lists on a hit and the one-element placeholders on a miss; in a well-formed table the two are index-parallel. */
  lemma LookupsParallel(t: Table, element: string)
    requires WellFormed(t)
    ensures |GetListOfExcitations(t, element)| == |GetListOfExcitationStrings(t, element)|
    ensures element !in t ==> GetListOfExcitations(t, element) == [0.0] && GetListOfExcitationStrings(t, element) == [""]
    ensures element in t ==> GetListOfExcitations(t, element) == t[element].exList && GetListOfExcitationStrings(t, element) == t[element].strList
  {
  }

  lemma {:induction false} ReadBlockParallel(s: Stream, text: Token, temp: ExData)
    requires Parallel(temp)
    ensures ReadBlock(s, text, temp).Ended? ==> Parallel(ReadBlock(s, text, temp).data)
    decreases Size(s.rest)
  {
    ReadsAdvance(s);
    var rd := ReadToken(s, text);
    if rd.value.text != "end" && rd.value.asReal.Some? && rd.stream.ok {
      ReadBlockParallel(rd.stream, rd.value, ExData(temp.exList + [rd.value.asReal.value], temp.strList + [rd.value.text]));
    }
  }

  lemma {:induction false} ParseFromWellFormed(s: Stream, text: Token, table: Table)
    requires WellFormed(table)
    ensures ParseFrom(s, text, table).Loaded? ==> WellFormed(ParseFrom(s, text, table).table)
    decreases Size(s.rest)
  {
    ReadsAdvance(s);
    var element := ReadText(s, "");
    if element.stream.ok {
      ReadBlockParallel(element.stream, text, EmptyData);
      var b := ReadBlock(element.stream, text, EmptyData);
      if b.Ended? {
        ParseFromWellFormed(b.stream, b.text, table[element.value := b.data]);
      }
    }
  }

  /** Whatever file is read, a table that loads has index-parallel energy and text lists. */
  lemma LoadedTableWellFormed(file: Option<seq<Line>>)
    ensures Parse(file).Loaded? ==> WellFormed(Parse(file).table)
  {
    if file.Some? {
      ParseFromWellFormed(Open(file.value), NoText, map[]);
    }
  }

  /** The value a number token stands for. */
  function Value(t: Token): real
  {
    if t.asReal.Some? then t.asReal.value else 0.0
  }

  /** The lists a block's value tokens give: each energy beside the text it was read from. */
  function DataOf(values: seq<Token>): (d: ExData)
    ensures |d.exList| == |d.strList| == |values|
  {
    ExData(seq(|values|, k requires 0 <= k < |values| => Value(values[k])),
           seq(|values|, k requires 0 <= k < |values| => values[k].text))
  }

  /** Tokens that may stand inside a block: numbers other than the sentinel. */
  predicate Values(values: seq<Token>)
  {
    forall k :: 0 <= k < |values| ==> values[k].text != "end" && values[k].asReal.Some?
  }

  /** A complete block on one line: symbol, values, `end`. */
  datatype Entry = Entry(element: string, values: seq<Token>)

  predicate BlockLine(line: Line, e: Entry)
  {
    && |line| >= 2
    && line[0].text == e.element
    && line[1..|line| - 1] == e.values
    && line[|line| - 1].text == "end"
    && Values(e.values)
  }

  function EntryElement(e: Entry): string { e.element }
  function EntryData(e: Entry): ExData { DataOf(e.values) }

  lemma {:induction false} ReadBlockOfValues(values: seq<Token>, endTok: Token, more: seq<Line>, text: Token, temp: ExData)
    requires Values(values) && endTok.text == "end"
    ensures ReadBlock(Stream([values + [endTok]] + more, true), text, temp)
         == Ended(Stream([[]] + more, true),
                  ExData(temp.exList + DataOf(values).exList, temp.strList + DataOf(values).strList), endTok)
    decreases |values|
  {
    if values == [] {
      assert values + [endTok] == [endTok] + [];
      ReadTokenAtHead(endTok, [], more, text);
      assert temp.exList + DataOf(values).exList == temp.exList;
      assert temp.strList + DataOf(values).strList == temp.strList;
    } else {
      var v := values[0];
      assert values + [endTok] == [v] + (values[1..] + [endTok]);
      ReadTokenAtHead(v, values[1..] + [endTok], more, text);
      var temp' := ExData(temp.exList + [Value(v)], temp.strList + [v.text]);
      ReadBlockOfValues(values[1..], endTok, more, v, temp');
      assert temp'.exList + DataOf(values[1..]).exList == temp.exList + DataOf(values).exList;
      assert temp'.strList + DataOf(values[1..]).strList == temp.strList + DataOf(values).strList;
    }
  }

  /** The `text` left behind after reading the complete blocks `lines`. */
  function TextAfter(lines: seq<Line>, text: Token): Token
  {
    if lines == [] || lines[|lines| - 1] == [] then text else lines[|lines| - 1][|lines[|lines| - 1]| - 1]
  }

  /** The values and `end` of a complete block line are read as the block's lists. */
  lemma ReadBlockLine(l: Line, e: Entry, more: seq<Line>, text: Token)
    requires BlockLine(l, e)
    ensures ReadBlock(Stream([l[1..]] + more, true), text, EmptyData)
         == Ended(Stream([[]] + more, true), DataOf(e.values), l[|l| - 1])
  {
    var endTok := l[|l| - 1];
    assert l[1..] == e.values + [endTok];
    ReadBlockOfValues(e.values, endTok, more, text, EmptyData);
    assert EmptyData.exList + DataOf(e.values).exList == DataOf(e.values).exList;
    assert EmptyData.strList + DataOf(e.values).strList == DataOf(e.values).strList;
  }

  /** One complete block line: its entry is stored and `text` is left at its `end`. */
  lemma ParseOneBlock(l: Line, e: Entry, more: seq<Line>, text: Token, table: Table)
    requires BlockLine(l, e)
    ensures ParseFrom(Open([l] + more), text, table)
         == ParseFrom(Open(more), l[|l| - 1], table[e.element := DataOf(e.values)])
  {
    assert l == [l[0]] + l[1..];
    ReadsAtHead(l[0], l[1..], more);
    ReadBlockLine(l, e, more, text);
    SkipsExhaustedLine(more);
    assert ReadText(Stream([[]] + more, true), "") == ReadText(Open(more), "");
  }

  /** The first of several complete block lines. */
  lemma ParseFirstBlock(lines: seq<Line>, e: Entry, rest: seq<Line>, text: Token, table: Table)
    requires |lines| > 0 && BlockLine(lines[0], e)
    ensures ParseFrom(Open(lines + rest), text, table)
         == ParseFrom(Open(lines[1..] + rest), lines[0][|lines[0]| - 1], table[e.element := DataOf(e.values)])
  {
    assert lines + rest == [lines[0]] + (lines[1..] + rest);
    ParseOneBlock(lines[0], e, lines[1..] + rest, text, table);
  }

  /** The text after several lines is the text after the lines that follow the first, started from its last token. */
  lemma TextAfterFirst(lines: seq<Line>, text: Token)
    requires |lines| > 0 && |lines[0]| > 0 && |lines[|lines| - 1]| > 0
    ensures TextAfter(lines[1..], lines[0][|lines[0]| - 1]) == TextAfter(lines, text)
  {
    if lines[1..] != [] {
      assert lines[1..][|lines[1..]| - 1] == lines[|lines| - 1];
    }
  }

  lemma BlockLinesTail(lines: seq<Line>, entries: seq<Entry>)
    requires |lines| == |entries| > 0
    requires forall i :: 0 <= i < |lines| ==> BlockLine(lines[i], entries[i])
    ensures forall i :: 0 <= i < |lines[1..]| ==> BlockLine(lines[1..][i], entries[1..][i])
  {
    forall i | 0 <= i < |lines[1..]| ensures BlockLine(lines[1..][i], entries[1..][i]) {
      assert lines[1..][i] == lines[i + 1] && entries[1..][i] == entries[i + 1];
    }
  }

  /** `table` with the entries stored one after another, front to back. */
  function Stored(table: Table, entries: seq<Entry>): Table
    decreases |entries|
  {
    if entries == [] then table
    else Stored(table[entries[0].element := DataOf(entries[0].values)], entries[1..])
  }

  lemma {:induction false} StoredIsBuild(done: seq<Entry>, entries: seq<Entry>)
    ensures Stored(LastWins.Build(done, EntryElement, EntryData), entries)
         == LastWins.Build(done + entries, EntryElement, EntryData)
    decreases |entries|
  {
    if entries == [] {
      assert done + entries == done;
    } else {
      LastWins.BuildSnoc(done, entries[0], EntryElement, EntryData);
      StoredIsBuild(done + [entries[0]], entries[1..]);
      assert (done + [entries[0]]) + entries[1..] == done + entries;
    }
  }

  lemma {:induction false} ParseBlockLines(lines: seq<Line>, entries: seq<Entry>, rest: seq<Line>, text: Token, table: Table)
    requires |lines| == |entries|
    requires forall i :: 0 <= i < |lines| ==> BlockLine(lines[i], entries[i])
    ensures ParseFrom(Open(lines + rest), text, table)
         == ParseFrom(Open(rest), TextAfter(lines, text), Stored(table, entries))
    decreases |lines|
  {
    if lines == [] {
      assert lines + rest == rest;
    } else {
      var e := entries[0];
      ParseFirstBlock(lines, e, rest, text, table);
      BlockLinesTail(lines, entries);
      ParseBlockLines(lines[1..], entries[1..], rest, lines[0][|lines[0]| - 1], table[e.element := DataOf(e.values)]);
      TextAfterFirst(lines, text);
    }
  }

  /**
    A file of complete blocks, one per line, loads to the table that assigns
    each block's lists to its symbol in file order: a later block for the same
    symbol replaces the earlier one, and nothing carries over between blocks.
   */
  lemma WellFormedFileLoads(lines: seq<Line>, entries: seq<Entry>)
    requires |lines| == |entries|
    requires forall i :: 0 <= i < |lines| ==> BlockLine(lines[i], entries[i])
    ensures Parse(Some(lines)) == Loaded(LastWins.Build(entries, EntryElement, EntryData))
  {
    ParseBlockLines(lines, entries, [], NoText, map[]);
    StoredIsBuild([], entries);
    assert lines + [] == lines && [] + entries == entries;
  }

  lemma {:induction false} ReadBlockRunsOut(values: seq<Token>, text: Token, temp: ExData)
    requires Values(values) && values != []
    ensures ReadBlock(Stream([values], true), text, temp) == BlockHangs
    decreases |values|
  {
    var v := values[0];
    assert values == [v] + values[1..];
    assert [values] == [[v] + values[1..]] + [];
    ReadTokenAtHead(v, values[1..], [], text);
    var temp' := ExData(temp.exList + [Value(v)], temp.strList + [v.text]);
    if values[1..] != [] {
      ReadBlockRunsOut(values[1..], v, temp');
    } else {
      SkipsExhaustedLine([]);
    }
  }

  /** A file whose last block has values but no `end` makes the constructor loop forever. */
  lemma TruncatedBlockHangs(lines: seq<Line>, entries: seq<Entry>, element: Token, values: seq<Token>)
    requires |lines| == |entries|
    requires forall i :: 0 <= i < |lines| ==> BlockLine(lines[i], entries[i])
    requires Values(values) && values != []
    ensures Parse(Some(lines + [[element] + values])) == Hangs
  {
    ParseBlockLines(lines, entries, [[element] + values], NoText, map[]);
    ReadsAtHead(element, values, []);
    ReadBlockRunsOut(values, TextAfter(lines, NoText), EmptyData);
  }

  /** A file holding only a symbol hands the empty initial text to `stod`, which throws. */
  lemma LoneSymbolThrows(element: Token)
    ensures Parse(Some([[element]])) == Throws
  {
    ReadsAtHead(element, [], []);
    SkipsExhaustedLine([]);
  }

  /**
    A symbol with nothing after it at the end of a file of complete blocks
    re-reads the stale `end` of the previous block and gets an empty entry.
   */
  lemma TrailingSymbolGetsEmptyEntry(lines: seq<Line>, entries: seq<Entry>, element: Token)
    requires |lines| == |entries| && lines != []
    requires forall i :: 0 <= i < |lines| ==> BlockLine(lines[i], entries[i])
    ensures Parse(Some(lines + [[element]]))
         == Loaded(LastWins.Build(entries, EntryElement, EntryData)[element.text := EmptyData])
  {
    ParseBlockLines(lines, entries, [[element]], NoText, map[]);
    StoredIsBuild([], entries);
    ReadsAtHead(element, [], []);
    SkipsExhaustedLine([]);
    assert [] + entries == entries;
  }
}
