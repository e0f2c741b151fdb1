/**
  The configuration file `SPSPlot` reads and writes (src/SPSPlot.cpp:48-60 and
  191-202): four labelled header lines with the beam energy, field, angle and
  rho window, a blank line, a column-title line, then one row
  `AT ZT AP ZP AE ZE` per reaction.
 */
module ReactionFile {
  import opened Wrappers
  import opened Decimal
  import opened TextStream

  datatype Header = Header(beamKE: real, b: real, theta: real, rhoMin: real, rhoMax: real)

  /** The six integers that identify a reaction: target, projectile and ejectile A and Z. */
  datatype Reactants = Reactants(at: int, zt: int, ap: int, zp: int, ae: int, ze: int)

  datatype Config = Config(header: Header, rows: seq<Reactants>)

  /** The reader's locals before anything is read into them. */
  const NoHeader: Header := Header(0.0, 0.0, 0.0, 0.0, 0.0)
  const NoReactants: Reactants := Reactants(0, 0, 0, 0, 0, 0)

  /** `input>>junk>>x`: a label into `junk`, which is never used, then a double. */
  function ReadLabelled(s: Stream, prev: real): Read<real>
  {
    var junk := ReadText(s, "");
    ReadReal(junk.stream, prev)
  }

  /** `input>>junk>>bke>>junk>>b>>junk>>theta; input>>junk>>rhomin>>junk>>rhomax;` */
  function ReadHeader(s: Stream): Read<Header>
  {
    var bke := ReadLabelled(s, NoHeader.beamKE);
    var b := ReadLabelled(bke.stream, NoHeader.b);
    var theta := ReadLabelled(b.stream, NoHeader.theta);
    var rhoMin := ReadLabelled(theta.stream, NoHeader.rhoMin);
    var rhoMax := ReadLabelled(rhoMin.stream, NoHeader.rhoMax);
    Read(rhoMax.stream, Header(bke.value, b.value, theta.value, rhoMin.value, rhoMax.value))
  }

  /** `input>>zt>>ap>>zp>>ae>>ze`, each keeping its old value when the stream has failed. */
  function ReadRowRest(s: Stream, prev: Reactants): Read<Reactants>
  {
    var zt := ReadInt(s, prev.zt);
    var ap := ReadInt(zt.stream, prev.ap);
    var zp := ReadInt(ap.stream, prev.zp);
    var ae := ReadInt(zp.stream, prev.ae);
    var ze := ReadInt(ae.stream, prev.ze);
    Read(ze.stream, Reactants(prev.at, zt.value, ap.value, zp.value, ae.value, ze.value))
  }

  /** `while(input>>at) { input>>zt>>ap>>zp>>ae>>ze; ... }`: one row per successful read of `at`. */
  function ReadRows(s: Stream, prev: Reactants): seq<Reactants>
    decreases Size(s.rest)
  {
    var at := ReadInt(s, prev.at);
    if !at.stream.ok then []
    else
      var row := ReadRowRest(at.stream, prev.(at := at.value));
      ReadsAdvance(s);
      RowRestAdvances(at.stream, prev.(at := at.value));
      [row.value] + ReadRows(row.stream, row.value)
  }

  /** Reading the rest of a row moves the stream forward. */
  lemma RowRestAdvances(s: Stream, prev: Reactants)
    ensures Size(ReadRowRest(s, prev).stream.rest) <= Size(s.rest)
  {
    var zt := ReadInt(s, prev.zt);
    var ap := ReadInt(zt.stream, prev.ap);
    var zp := ReadInt(ap.stream, prev.zp);
    var ae := ReadInt(zp.stream, prev.ae);
    ReadsAdvance(s);
    ReadsAdvance(zt.stream);
    ReadsAdvance(ap.stream);
    ReadsAdvance(zp.stream);
    ReadsAdvance(ae.stream);
  }

  /** One pass of the row loop extends the rows read so far by one. */
  lemma ReadRowsLoopStep(done: seq<Reactants>, s: Stream, prev: Reactants, start: Stream)
    requires done + ReadRows(s, prev) == ReadRows(start, NoReactants)
    requires ReadInt(s, prev.at).stream.ok
    ensures var at := ReadInt(s, prev.at);
      var row := ReadRowRest(at.stream, prev.(at := at.value));
      (done + [row.value]) + ReadRows(row.stream, row.value) == ReadRows(start, NoReactants)
  {
    var at := ReadInt(s, prev.at);
    var row := ReadRowRest(at.stream, prev.(at := at.value));
    assert ReadRows(s, prev) == [row.value] + ReadRows(row.stream, row.value);
    assert (done + [row.value]) + ReadRows(row.stream, row.value) == done + ([row.value] + ReadRows(row.stream, row.value));
  }

  /** When `input>>at` fails, the loop has read every row. */
  lemma ReadRowsDone(done: seq<Reactants>, s: Stream, prev: Reactants, start: Stream)
    requires done + ReadRows(s, prev) == ReadRows(start, NoReactants)
    requires !ReadInt(s, prev.at).stream.ok
    ensures done == ReadRows(start, NoReactants)
  {
    assert ReadRows(s, prev) == [];
    assert done + [] == done;
  }

  /** What `ReadInputFile` takes from an opened file: the header, then the rows after three `getline`s. */
  function ParseConfig(lines: seq<Line>): Config
  {
    var h := ReadHeader(Open(lines));
    Config(h.value, ReadRows(GetLine(GetLine(GetLine(h.stream))), NoReactants))
  }

  /** A token written as text that is not a number. */
  function Word(text: string): Token
  {
    Token(text, None, None)
  }

  /** An `int` written with `<<`. */
  function IntToken(i: int): Token
  {
    Token(IntToString(i), Some(i), Some(i as real))
  }

  function RowLine(r: Reactants): Line
  {
    [IntToken(r.at), IntToken(r.zt), IntToken(r.ap), IntToken(r.zp), IntToken(r.ae), IntToken(r.ze)]
  }

  /** The four labelled header lines; `show` is `<<` on a double at the stream's default precision. */
  function HeaderLines(show: real -> Token, h: Header): seq<Line>
  {
    [ [Word("BeamKE(MeV):"), show(h.beamKE)],
      [Word("Bfield(kG):"), show(h.b)],
      [Word("Theta(deg):"), show(h.theta)],
      [Word("RhoMin(cm):"), show(h.rhoMin), Word("RhoMax(cm):"), show(h.rhoMax)] ]
  }

  const ColumnTitles: Line := [Word("AT"), Word("ZT"), Word("AP"), Word("ZP"), Word("AE"), Word("ZE")]

  function RowLines(rows: seq<Reactants>): (lines: seq<Line>)
    ensures |lines| == |rows|
  {
    if rows == [] then [] else [RowLine(rows[0])] + RowLines(rows[1..])
  }

  /** Row `k` of the saved table is the line of reaction `k`. */
  lemma {:induction false} RowLinesAt(rows: seq<Reactants>)
    ensures forall k :: 0 <= k < |rows| ==> RowLines(rows)[k] == RowLine(rows[k])
  {
    if rows != [] {
      RowLinesAt(rows[1..]);
    }
  }

  /** The lines `SaveToFile` writes: header, a blank line, the column titles, one row per reaction. */
  function SaveLines(show: real -> Token, h: Header, rows: seq<Reactants>): (lines: seq<Line>)
    ensures |lines| == 6 + |rows|
  {
    HeaderLines(show, h) + [[], ColumnTitles] + RowLines(rows)
  }

  /** The value a double reads back as after being written with `show`. */
  function Reread(show: real -> Token, x: real): real
  {
    if show(x).asReal.Some? then show(x).asReal.value else 0.0
  }

  lemma ReadRowLine(r: Reactants, more: seq<Line>, prev: Reactants)
    ensures ReadInt(Stream([RowLine(r)] + more, true), prev.at) == Read(Stream([RowLine(r)[1..]] + more, true), r.at)
    ensures ReadRowRest(Stream([RowLine(r)[1..]] + more, true), prev.(at := r.at)) == Read(Stream([[]] + more, true), r)
  {
    var l := RowLine(r);
    assert l == [l[0]] + l[1..];
    assert l[1..] == [l[1]] + l[2..] && l[2..] == [l[2]] + l[3..] && l[3..] == [l[3]] + l[4..];
    assert l[4..] == [l[4]] + l[5..] && l[5..] == [l[5]] + [];
    ReadsAtHead(l[0], l[1..], more);
    ReadsAtHead(l[1], l[2..], more);
    ReadsAtHead(l[2], l[3..], more);
    ReadsAtHead(l[3], l[4..], more);
    ReadsAtHead(l[4], l[5..], more);
    ReadsAtHead(l[5], [], more);
  }

  /** An exhausted current line makes no difference to the row loop. */
  lemma ReadRowsPastLineEnd(more: seq<Line>, prev: Reactants)
    ensures ReadRows(Stream([[]] + more, true), prev) == ReadRows(Open(more), prev)
  {
    SkipsExhaustedLine(more);
    assert ReadInt(Stream([[]] + more, true), prev.at) == ReadInt(Open(more), prev.at);
  }

  /** A saved row followed by more lines reads as that row, then the rows of the lines after it. */
  lemma ReadRowsStep(r: Reactants, more: seq<Line>, prev: Reactants)
    ensures ReadRows(Open([RowLine(r)] + more), prev) == [r] + ReadRows(Open(more), r)
  {
    var s := Open([RowLine(r)] + more);
    ReadRowLine(r, more, prev);
    var at := ReadInt(s, prev.at);
    var row := ReadRowRest(at.stream, prev.(at := at.value));
    assert row == Read(Stream([[]] + more, true), r);
    assert ReadRows(s, prev) == [row.value] + ReadRows(row.stream, row.value);
    ReadRowsPastLineEnd(more, r);
  }

  lemma {:induction false} ReadRowLines(rows: seq<Reactants>, prev: Reactants)
    ensures ReadRows(Open(RowLines(rows)), prev) == rows
    decreases |rows|
  {
    if rows != [] {
      ReadRowsStep(rows[0], RowLines(rows[1..]), prev);
      ReadRowLines(rows[1..], rows[0]);
    }
  }

  /** A labelled value at the head of a line: the label is skipped and the value read. */
  lemma LabelledAt(tag: Token, x: Token, tail: Line, more: seq<Line>, prev: real)
    requires x.asReal.Some?
    ensures ReadLabelled(Stream([[tag, x] + tail] + more, true), prev) == Read(Stream([tail] + more, true), x.asReal.value)
  {
    assert [tag, x] + tail == [tag] + ([x] + tail);
    ReadsAtHead(tag, [x] + tail, more);
    ReadsAtHead(x, tail, more);
  }

  /** A labelled value on the next line, after the current one is used up. */
  lemma LabelledOnNextLine(tag: Token, x: Token, tail: Line, more: seq<Line>, prev: real)
    requires x.asReal.Some?
    ensures ReadLabelled(Stream([[], [tag, x] + tail] + more, true), prev) == Read(Stream([tail] + more, true), x.asReal.value)
  {
    assert [[], [tag, x] + tail] + more == [[]] + ([[tag, x] + tail] + more);
    SkipsExhaustedLine([[tag, x] + tail] + more);
    assert ReadText(Stream([[]] + ([[tag, x] + tail] + more), true), "") == ReadText(Open([[tag, x] + tail] + more), "");
    LabelledAt(tag, x, tail, more, prev);
  }

  /** A line `label value` at the head of the stream is read to its end. */
  lemma LineLabelled(t: Token, x: Token, more: seq<Line>, prev: real)
    requires x.asReal.Some?
    ensures ReadLabelled(Stream([[t, x]] + more, true), prev) == Read(Stream([[]] + more, true), x.asReal.value)
  {
    assert [t, x] + [] == [t, x];
    LabelledAt(t, x, [], more, prev);
  }

  /** A line `label value` after a used-up line is read to its end. */
  lemma LabelledLine(t: Token, x: Token, more: seq<Line>, prev: real)
    requires x.asReal.Some?
    ensures ReadLabelled(Stream([[]] + ([[t, x]] + more), true), prev) == Read(Stream([[]] + more, true), x.asReal.value)
  {
    assert [t, x] + [] == [t, x];
    assert [[]] + ([[t, x]] + more) == [[], [t, x] + []] + more;
    LabelledOnNextLine(t, x, [], more, prev);
  }

  /** The first pair of a line `label value label value` after a used-up line. */
  lemma SplitLabelledLine(t: Token, x: Token, t': Token, x': Token, more: seq<Line>, prev: real)
    requires x.asReal.Some?
    ensures ReadLabelled(Stream([[]] + ([[t, x, t', x']] + more), true), prev) == Read(Stream([[t', x']] + more, true), x.asReal.value)
  {
    assert [t, x] + [t', x'] == [t, x, t', x'];
    assert [[]] + ([[t, x, t', x']] + more) == [[], [t, x] + [t', x']] + more;
    LabelledOnNextLine(t, x, [t', x'], more, prev);
  }

  /** Four header lines of labelled numbers read as the header, up to the end of the fourth line. */
  lemma ReadLabelledLines(t0: Token, x0: Token, t1: Token, x1: Token, t2: Token, x2: Token,
                          t3: Token, x3: Token, t4: Token, x4: Token, rest: seq<Line>)
    requires x0.asReal.Some? && x1.asReal.Some? && x2.asReal.Some? && x3.asReal.Some? && x4.asReal.Some?
    ensures ReadHeader(Open([[t0, x0], [t1, x1], [t2, x2], [t3, x3, t4, x4]] + rest))
         == Read(Stream([[]] + rest, true),
                 Header(x0.asReal.value, x1.asReal.value, x2.asReal.value, x3.asReal.value, x4.asReal.value))
  {
    var m3 := [[t3, x3, t4, x4]] + rest;
    var m2 := [[t2, x2]] + m3;
    var m1 := [[t1, x1]] + m2;
    assert [[t0, x0], [t1, x1], [t2, x2], [t3, x3, t4, x4]] + rest == [[t0, x0]] + m1;
    LineLabelled(t0, x0, m1, NoHeader.beamKE);
    LabelledLine(t1, x1, m2, NoHeader.b);
    LabelledLine(t2, x2, m3, NoHeader.theta);
    SplitLabelledLine(t3, x3, t4, x4, rest, NoHeader.rhoMin);
    LineLabelled(t4, x4, rest, NoHeader.rhoMax);
  }

  lemma ReadSavedHeader(show: real -> Token, h: Header, rest: seq<Line>)
    requires forall x :: show(x).asReal.Some?
    ensures ReadHeader(Open(HeaderLines(show, h) + rest))
         == Read(Stream([[]] + rest, true),
                 Header(Reread(show, h.beamKE), Reread(show, h.b), Reread(show, h.theta), Reread(show, h.rhoMin), Reread(show, h.rhoMax)))
  {
    ReadLabelledLines(Word("BeamKE(MeV):"), show(h.beamKE), Word("Bfield(kG):"), show(h.b), Word("Theta(deg):"), show(h.theta),
                      Word("RhoMin(cm):"), show(h.rhoMin), Word("RhoMax(cm):"), show(h.rhoMax), rest);
  }

  /**
    What `SaveToFile` writes, `ReadInputFile` reads back: the same reactant
    rows in the same order, and each header value as its printed form reads.
   */
  lemma SaveThenParse(show: real -> Token, h: Header, rows: seq<Reactants>)
    requires forall x :: show(x).asReal.Some?
    ensures ParseConfig(SaveLines(show, h, rows))
         == Config(Header(Reread(show, h.beamKE), Reread(show, h.b), Reread(show, h.theta), Reread(show, h.rhoMin), Reread(show, h.rhoMax)),
                   rows)
  {
    var rest := [[], ColumnTitles] + RowLines(rows);
    assert SaveLines(show, h, rows) == HeaderLines(show, h) + rest;
    ReadSavedHeader(show, h, rest);
    assert GetLine(GetLine(GetLine(Stream([[]] + rest, true)))) == Open(RowLines(rows));
    ReadRowLines(rows, NoReactants);
  }

  /** With a formatter that prints enough digits, the whole configuration round-trips. */
  lemma ExactSaveThenParse(show: real -> Token, h: Header, rows: seq<Reactants>)
    requires forall x :: show(x).asReal == Some(x)
    ensures ParseConfig(SaveLines(show, h, rows)) == Config(h, rows)
  {
    SaveThenParse(show, h, rows);
  }
}
