/**
  The plotter of src/SPSPlot.cpp: an ordered collection of reactions that
  share one beam energy, lab angle and field, a rho window for plotting, and
  the array of graphs made from them.

  `std::vector<Reaction>` holds its reactions by value, so the collection is a
  sequence of `Reactions.ReactionState` values; a reaction enters it as the
  state of a `Reactions.Reaction` object set up by that class's methods, and
  an update in place replaces an element by the state `SetKinematicParams`
  leads to. The graph array holds one `Series` per reaction: what
  `GetGraphs` feeds into a ROOT graph.
 */
module Plotting {
  import opened Wrappers
  import opened Doubles
  import opened TextStream
  import MassLookup
  import ExTable
  import ReactionFile
  import Reactions
  import RhoWindow
  import GraphBook

  /** One graph: the reaction's name, its index (the y value of every point), and the kept (rho, label) points. */
  datatype Series = Series(name: string, index: int, points: seq<RhoWindow.Point>)

  const NoSeries: Series := Series("", 0, [])

  /** The graph of reaction `i` in state `st` for the window `lo .. hi`. */
  function Plot(i: int, st: Reactions.ReactionState, lo: real, hi: real): Series
    requires Reactions.Labelled(st)
  {
    Series(st.name, i, RhoWindow.Window(RhoWindow.Points(st.rhos, st.exStrings), lo, hi))
  }

  /** The reactant tuples of a collection of reactions, in collection order. */
  function RowsOf(rs: seq<Reactions.ReactionState>): (rows: seq<ReactionFile.Reactants>)
    ensures |rows| == |rs|
  {
    seq(|rs|, i requires 0 <= i < |rs| => Reactions.Identity(rs[i]))
  }

  /** Every reaction is in a state the `Reaction` methods can reach, with a label for every rho. */
  predicate AllValid(rs: seq<Reactions.ReactionState>)
  {
    forall i :: 0 <= i < |rs| ==> Reactions.Valid(rs[i]) && Reactions.Labelled(rs[i])
  }

  /** The reactions a configuration file yields: one per row, in order, each set up with the header's settings. */
  function PreparedAll(math: MathLib, mass: MassLookup.MassTable, ex: ExTable.Table, cfg: ReactionFile.Config)
    : (rs: seq<Reactions.ReactionState>)
    ensures |rs| == |cfg.rows|
  {
    var h := cfg.header;
    seq(|cfg.rows|, i requires 0 <= i < |cfg.rows| => Reactions.Prepared(math, mass, ex, cfg.rows[i], h.beamKE, h.theta, h.b))
  }

  /** One more row read appends one more prepared reaction. */
  lemma PreparedAllSnoc(math: MathLib, mass: MassLookup.MassTable, ex: ExTable.Table, h: ReactionFile.Header,
                        done: seq<ReactionFile.Reactants>, row: ReactionFile.Reactants)
    ensures PreparedAll(math, mass, ex, ReactionFile.Config(h, done + [row]))
         == PreparedAll(math, mass, ex, ReactionFile.Config(h, done)) + [Reactions.Prepared(math, mass, ex, row, h.beamKE, h.theta, h.b)]
  {
    var rs := PreparedAll(math, mass, ex, ReactionFile.Config(h, done + [row]));
    var prefix := PreparedAll(math, mass, ex, ReactionFile.Config(h, done));
    assert rs[..|done|] == prefix;
  }

  /** Loaded reactions are valid and labelled. */
  lemma PreparedAllValid(math: MathLib, mass: MassLookup.MassTable, ex: ExTable.Table, cfg: ReactionFile.Config)
    requires ExTable.WellFormed(ex)
    ensures AllValid(PreparedAll(math, mass, ex, cfg))
  {
    var h := cfg.header;
    forall i | 0 <= i < |cfg.rows|
      ensures var st := PreparedAll(math, mass, ex, cfg)[i];
              Reactions.Valid(st) && Reactions.Labelled(st)
    {
      Reactions.PreparedReaction(math, mass, ex, cfg.rows[i], h.beamKE, h.theta, h.b);
    }
  }

  /** Loaded reactions carry exactly the rows they were read from, in order. */
  lemma PreparedAllRows(math: MathLib, mass: MassLookup.MassTable, ex: ExTable.Table, cfg: ReactionFile.Config)
    ensures RowsOf(PreparedAll(math, mass, ex, cfg)) == cfg.rows
  {
    var h := cfg.header;
    forall i | 0 <= i < |cfg.rows|
      ensures Reactions.Identity(PreparedAll(math, mass, ex, cfg)[i]) == cfg.rows[i]
    {
      Reactions.PreparedIdentity(math, mass, ex, cfg.rows[i], h.beamKE, h.theta, h.b);
    }
  }

  /**
    What `SaveToFile` writes, `ReadInputFile` loads back as reactions with
    the same reactant rows in the same order, whatever the tables.
   */
  lemma SavedRowsReload(math: MathLib, mass: MassLookup.MassTable, ex: ExTable.Table, show: real -> Token,
                        h: ReactionFile.Header, rs: seq<Reactions.ReactionState>)
    requires forall x :: show(x).asReal.Some?
    ensures RowsOf(PreparedAll(math, mass, ex, ReactionFile.ParseConfig(ReactionFile.SaveLines(show, h, RowsOf(rs))))) == RowsOf(rs)
  {
    ReactionFile.SaveThenParse(show, h, RowsOf(rs));
    PreparedAllRows(math, mass, ex, ReactionFile.ParseConfig(ReactionFile.SaveLines(show, h, RowsOf(rs))));
  }

  /** What the two halves of `ReadInputFile` read is what the whole file parses to. */
  lemma ParsedReactions(math: MathLib, mass: MassLookup.MassTable, ex: ExTable.Table, lines: seq<Line>,
                        h: ReactionFile.Header, rows: Stream, loaded: seq<Reactions.ReactionState>)
    requires ExTable.WellFormed(ex)
    requires ReactionFile.ParseConfig(lines) == ReactionFile.Config(h, ReactionFile.ReadRows(rows, ReactionFile.NoReactants))
    requires loaded == PreparedAll(math, mass, ex, ReactionFile.Config(h, ReactionFile.ReadRows(rows, ReactionFile.NoReactants)))
    ensures AllValid(loaded)
    ensures loaded == PreparedAll(math, mass, ex, ReactionFile.ParseConfig(lines))
    ensures h == ReactionFile.ParseConfig(lines).header
  {
    PreparedAllValid(math, mass, ex, ReactionFile.ParseConfig(lines));
  }

  class SPSPlot {
    var reactions: seq<Reactions.ReactionState>
    /** Field in kG, lab angle in degrees, beam kinetic energy in MeV. */
    var B: real
    var theta: real
    var beamKE: real
    var rhoMin: real
    var rhoMax: real
    var ngraphs: nat
    var validFlag: bool
    var graphArray: array?<Series>

    /** `ngraphs` and the length of `graph_array`, as the bookkeeping of `GetGraphs` sees them. */
    function Book(): GraphBook.Book
      reads this
    {
      GraphBook.Book(ngraphs, if graphArray == null then None else Some(graphArray.Length))
    }

    /** Every reaction valid and labelled, and the graph count matching the graph array. */
    predicate Invariant()
      reads this
    {
      AllValid(reactions) && GraphBook.Consistent(Book())
    }

    /** What `ReadInputFile` leaves after reading `cfg`: the prepared reactions and the header's values. */
    predicate Loaded(math: MathLib, mass: MassLookup.MassTable, ex: ExTable.Table, cfg: ReactionFile.Config)
      reads this
    {
      var h := cfg.header;
      && reactions == PreparedAll(math, mass, ex, cfg)
      && rhoMin == h.rhoMin && rhoMax == h.rhoMax && beamKE == h.beamKE && theta == h.theta && B == h.b
    }

    /** The default constructor: no reactions, no graphs, not valid. */
    constructor()
      ensures Invariant()
      ensures reactions == [] && ngraphs == 0 && graphArray == null && !validFlag
    {
      reactions := [];
      B, theta, beamKE, rhoMin, rhoMax := 0.0, 0.0, 0.0, 0.0, 0.0;
      ngraphs := 0;
      validFlag := false;
      graphArray := null;
    }

    /** The standalone constructor: valid exactly when the file could be opened. */
    constructor FromFile(math: MathLib, mass: MassLookup.MassTable, ex: ExTable.Table, file: Option<seq<Line>>)
      requires ExTable.WellFormed(ex)
      ensures Invariant()
      ensures validFlag == file.Some? && ngraphs == 0 && graphArray == null
      ensures file.None? ==> reactions == []
      ensures file.Some? ==> Loaded(math, mass, ex, ReactionFile.ParseConfig(file.value))
    {
      reactions := [];
      B, theta, beamKE, rhoMin, rhoMax := 0.0, 0.0, 0.0, 0.0, 0.0;
      ngraphs := 0;
      validFlag := false;
      graphArray := null;
      new;
      validFlag := ReadInputFile(math, mass, ex, file);
    }

    /** `AttachFile`: loads the file, and the plot is valid exactly when it could be opened. */
    method AttachFile(math: MathLib, mass: MassLookup.MassTable, ex: ExTable.Table, file: Option<seq<Line>>)
      requires Invariant() && ExTable.WellFormed(ex)
      modifies this`reactions, this`rhoMin, this`rhoMax, this`beamKE, this`theta, this`B, this`validFlag
      ensures Invariant()
      ensures validFlag == file.Some?
      ensures file.None? ==> (reactions == old(reactions) && rhoMin == old(rhoMin) && rhoMax == old(rhoMax)
                              && beamKE == old(beamKE) && theta == old(theta) && B == old(B))
      ensures file.Some? ==> Loaded(math, mass, ex, ReactionFile.ParseConfig(file.value))
    {
      validFlag := ReadInputFile(math, mass, ex, file);
    }

    /**
      `ReadInputFile`: `None` is a file that cannot be opened, which changes
      nothing. Otherwise the reactions are replaced by one per row of the file,
      each set up with the header's beam energy, angle and field.
     */
    method ReadInputFile(math: MathLib, mass: MassLookup.MassTable, ex: ExTable.Table, file: Option<seq<Line>>)
      returns (ok: bool)
      requires Invariant() && ExTable.WellFormed(ex)
      modifies this`reactions, this`rhoMin, this`rhoMax, this`beamKE, this`theta, this`B
      ensures Invariant()
      ensures ok == file.Some?
      ensures file.None? ==> (reactions == old(reactions) && rhoMin == old(rhoMin) && rhoMax == old(rhoMax)
                              && beamKE == old(beamKE) && theta == old(theta) && B == old(B))
      ensures file.Some? ==> Loaded(math, mass, ex, ReactionFile.ParseConfig(file.value))
    {
      if file.None? {
        return false;
      }
      var h, rows := ReadSettings(file.value);
      var loaded := ReadReactions(math, mass, ex, h, rows);
      ParsedReactions(math, mass, ex, file.value, h, rows, loaded);
      reactions, rhoMin, rhoMax, beamKE, theta, B := loaded, h.rhoMin, h.rhoMax, h.beamKE, h.theta, h.b;
      return true;
    }

    /** The header of `ReadInputFile`: five labelled values, then three `getline`s before the rows. */
    static method ReadSettings(lines: seq<Line>) returns (h: ReactionFile.Header, rows: Stream)
      ensures ReactionFile.ParseConfig(lines) == ReactionFile.Config(h, ReactionFile.ReadRows(rows, ReactionFile.NoReactants))
    {
      var read := ReactionFile.ReadHeader(Open(lines));
      h := read.value;
      rows := GetLine(GetLine(GetLine(read.stream)));
    }

    /**
      The row loop of `ReadInputFile` (the vector is cleared first): while
      `input>>at` succeeds, the rest of the row is read, and a new reaction set
      up from it with the header's settings is appended.
     */
    static method ReadReactions(math: MathLib, mass: MassLookup.MassTable, ex: ExTable.Table, h: ReactionFile.Header, start: Stream)
      returns (rs: seq<Reactions.ReactionState>)
      ensures rs == PreparedAll(math, mass, ex, ReactionFile.Config(h, ReactionFile.ReadRows(start, ReactionFile.NoReactants)))
    {
      rs := [];
      var s := start;
      var row := ReactionFile.NoReactants;
      ghost var done: seq<ReactionFile.Reactants> := [];
      while true
        invariant done + ReactionFile.ReadRows(s, row) == ReactionFile.ReadRows(start, ReactionFile.NoReactants)
        invariant rs == PreparedAll(math, mass, ex, ReactionFile.Config(h, done))
        decreases Size(s.rest)
      {
        var at := ReadInt(s, row.at);
        if !at.stream.ok {
          break;
        }
        var rest := ReactionFile.ReadRowRest(at.stream, row.(at := at.value));
        ReadsAdvance(s);
        ReactionFile.RowRestAdvances(at.stream, row.(at := at.value));
        ReactionFile.ReadRowsLoopStep(done, s, row, start);
        row := rest.value;
        var rxn := NewReaction(math, mass, ex, row, h.beamKE, h.theta, h.b);
        PreparedAllSnoc(math, mass, ex, h, done, row);
        rs := rs + [rxn.State()];
        done := done + [row];
        s := rest.stream;
      }
      ReactionFile.ReadRowsDone(done, s, row, start);
    }

    /** The body of the read loop: a new `Reaction`, its reactants, then the settings. */
    static method NewReaction(math: MathLib, mass: MassLookup.MassTable, ex: ExTable.Table,
                              row: ReactionFile.Reactants, bke: real, angle: real, field: real)
      returns (rxn: Reactions.Reaction)
      ensures fresh(rxn)
      ensures rxn.State() == Reactions.Prepared(math, mass, ex, row, bke, angle, field)
    {
      rxn := new Reactions.Reaction();
      rxn.SetReactionData(mass, ex, row.at, row.zt, row.ap, row.zp, row.ae, row.ze);
      rxn.SetKinematicParams(math, bke, angle, field);
    }

    /**
      `UpdateReactions`: the shared settings applied to every reaction in
      place, in collection order; each element becomes the state
      `SetKinematicParams` leads to.
     */
    method UpdateReactions(math: MathLib)
      requires Invariant()
      modifies this`reactions
      ensures Invariant()
      ensures reactions == Updated(math, old(reactions), beamKE, theta, B)
    {
      var i := 0;
      while i < |reactions|
        invariant 0 <= i <= |reactions| == |old(reactions)|
        invariant forall k :: 0 <= k < i ==> reactions[k] == Reactions.WithKinematics(math, old(reactions)[k], beamKE, theta, B)
        invariant forall k :: i <= k < |reactions| ==> reactions[k] == old(reactions)[k]
      {
        reactions := reactions[i := Reactions.WithKinematics(math, reactions[i], beamKE, theta, B)];
        i := i + 1;
      }
      UpdatedKeepsValid(math, old(reactions), beamKE, theta, B);
    }

    /** `SetParameters`: when valid, new beam energy, angle and field, pushed to every reaction; otherwise nothing. */
    method SetParameters(math: MathLib, bke: real, angle: real, field: real)
      requires Invariant()
      modifies this`beamKE, this`theta, this`B, this`reactions
      ensures Invariant()
      ensures !validFlag ==> beamKE == old(beamKE) && theta == old(theta) && B == old(B) && reactions == old(reactions)
      ensures validFlag ==> (beamKE == bke && theta == angle && B == field
                             && reactions == Updated(math, old(reactions), bke, angle, field))
    {
      if !validFlag {
        return;
      }
      beamKE, theta, B := bke, angle, field;
      UpdateReactions(math);
    }

    /** `SetB`: when valid, a new field pushed to every reaction; otherwise nothing. */
    method SetB(math: MathLib, field: real)
      requires Invariant()
      modifies this`B, this`reactions
      ensures Invariant()
      ensures !validFlag ==> B == old(B) && reactions == old(reactions)
      ensures validFlag ==> B == field && reactions == Updated(math, old(reactions), beamKE, theta, field)
    {
      if !validFlag {
        return;
      }
      B := field;
      UpdateReactions(math);
    }

    /** `SetTheta`: when valid, a new lab angle pushed to every reaction; otherwise nothing. */
    method SetTheta(math: MathLib, angle: real)
      requires Invariant()
      modifies this`theta, this`reactions
      ensures Invariant()
      ensures !validFlag ==> theta == old(theta) && reactions == old(reactions)
      ensures validFlag ==> theta == angle && reactions == Updated(math, old(reactions), beamKE, angle, B)
    {
      if !validFlag {
        return;
      }
      theta := angle;
      UpdateReactions(math);
    }

    /** `SetBeamKE`: when valid, a new beam energy pushed to every reaction; otherwise nothing. */
    method SetBeamKE(math: MathLib, bke: real)
      requires Invariant()
      modifies this`beamKE, this`reactions
      ensures Invariant()
      ensures !validFlag ==> beamKE == old(beamKE) && reactions == old(reactions)
      ensures validFlag ==> beamKE == bke && reactions == Updated(math, old(reactions), bke, theta, B)
    {
      if !validFlag {
        return;
      }
      beamKE := bke;
      UpdateReactions(math);
    }

    /** `SetRhoRange`: when valid, a new plotting window; no reaction is recomputed. */
    method SetRhoRange(lo: real, hi: real)
      modifies this`rhoMin, this`rhoMax
      ensures validFlag ==> rhoMin == lo && rhoMax == hi
      ensures !validFlag ==> rhoMin == old(rhoMin) && rhoMax == old(rhoMax)
    {
      if !validFlag {
        return;
      }
      rhoMin, rhoMax := lo, hi;
    }

    /**
      `AddReaction`: a copy of `rxn` (it is passed by value) gets the current
      settings and is appended; the reactions already held are untouched.
      Neither the flag nor the reaction's own state is checked.
     */
    method AddReaction(math: MathLib, rxn: Reactions.Reaction)
      requires Invariant()
      requires Reactions.Valid(rxn.State())
      modifies this`reactions
      ensures Invariant()
      ensures reactions == old(reactions) + [Reactions.WithKinematics(math, rxn.State(), beamKE, theta, B)]
    {
      var copy := new Reactions.Reaction.Copy(rxn);
      copy.SetKinematicParams(math, beamKE, theta, B);
      Reactions.KinematicsKeepValid(math, rxn.State(), beamKE, theta, B);
      reactions := reactions + [copy.State()];
    }

    /**
      `GetGraphs` with the array bookkeeping corrected (the array is
      reallocated whenever its length differs from the reaction count): null
      when not valid; otherwise graph `i` holds the in-window points of
      reaction `i`, and `ngraphs` is the reaction count.
     */
    method GetGraphs() returns (graphs: array?<Series>)
      requires Invariant()
      modifies this`ngraphs, this`graphArray, graphArray
      ensures Invariant()
      ensures !validFlag ==> graphs == null && ngraphs == old(ngraphs) && graphArray == old(graphArray)
      ensures !validFlag && graphArray != null ==> graphArray[..] == old(graphArray[..])
      ensures validFlag ==> Book() == GraphBook.GetGraphsCorrected(old(Book()), |reactions|).after
      ensures validFlag ==> graphs == graphArray && graphs != null && graphs.Length == |reactions| == ngraphs
      ensures validFlag ==> forall i :: 0 <= i < |reactions| ==> graphs[i] == Plot(i, reactions[i], rhoMin, rhoMax)
    {
      if !validFlag {
        return null;
      }
      var n := |reactions|;
      if graphArray == null || graphArray.Length != n {
        graphArray := new Series[n](_ => NoSeries);
      }
      FillGraphs(graphArray);
      ngraphs := n;
      graphs := graphArray;
    }

    /** The loop over reactions in `GetGraphs`: graph `i` from the window filter of reaction `i`. */
    method FillGraphs(graphs: array<Series>)
      requires AllValid(reactions) && graphs.Length == |reactions|
      modifies graphs
      ensures forall i :: 0 <= i < graphs.Length ==> graphs[i] == Plot(i, reactions[i], rhoMin, rhoMax)
    {
      var i := 0;
      while i < graphs.Length
        invariant 0 <= i <= graphs.Length
        invariant forall k :: 0 <= k < i ==> graphs[k] == Plot(k, reactions[k], rhoMin, rhoMax)
      {
        var r := reactions[i];
        var validRhos, exLabels := RhoWindow.FilterReaction(r.rhos, r.exStrings, rhoMin, rhoMax);
        graphs[i] := Series(r.name, i, RhoWindow.Zip(validRhos, exLabels));
        i := i + 1;
      }
    }

    /**
      `SaveToFile`: `None` when the file cannot be created; otherwise the
      header with the current settings, a blank line, the column titles, and
      one row per reaction in collection order.
     */
    method SaveToFile(show: real -> Token, canCreate: bool) returns (written: Option<seq<Line>>)
      ensures !canCreate ==> written == None
      ensures canCreate ==> written == Some(ReactionFile.SaveLines(show, ReactionFile.Header(beamKE, B, theta, rhoMin, rhoMax), RowsOf(reactions)))
    {
      if !canCreate {
        return None;
      }
      var lines := ReactionFile.HeaderLines(show, ReactionFile.Header(beamKE, B, theta, rhoMin, rhoMax)) + [[], ReactionFile.ColumnTitles];
      var rows: seq<Line> := [];
      var i := 0;
      while i < |reactions|
        invariant 0 <= i <= |reactions| && |rows| == i
        invariant forall k :: 0 <= k < i ==> rows[k] == ReactionFile.RowLine(RowsOf(reactions)[k])
      {
        var r := reactions[i];
        rows := rows + [ReactionFile.RowLine(ReactionFile.Reactants(r.target.A, r.target.Z, r.projectile.A, r.projectile.Z, r.ejectile.A, r.ejectile.Z))];
        i := i + 1;
      }
      ReactionFile.RowLinesAt(RowsOf(reactions));
      assert rows == ReactionFile.RowLines(RowsOf(reactions));
      written := Some(lines + rows);
    }
  }

  /** Every reaction with the same settings applied, in order. */
  function Updated(math: MathLib, rs: seq<Reactions.ReactionState>, bke: real, angle: real, field: real)
    : (us: seq<Reactions.ReactionState>)
    ensures |us| == |rs|
  {
    seq(|rs|, i requires 0 <= i < |rs| => Reactions.WithKinematics(math, rs[i], bke, angle, field))
  }

  /** Applying settings keeps every reaction valid and labelled. */
  lemma UpdatedKeepsValid(math: MathLib, rs: seq<Reactions.ReactionState>, bke: real, angle: real, field: real)
    requires AllValid(rs)
    ensures AllValid(Updated(math, rs, bke, angle, field))
  {
    forall i | 0 <= i < |rs|
      ensures Reactions.Valid(Updated(math, rs, bke, angle, field)[i]) && Reactions.Labelled(Updated(math, rs, bke, angle, field)[i])
    {
      Reactions.KinematicsKeepValid(math, rs[i], bke, angle, field);
    }
  }

  /** Applying settings keeps the count, order and identity of the reactions: the saved rows do not change. */
  lemma UpdatedKeepsRows(math: MathLib, rs: seq<Reactions.ReactionState>, bke: real, angle: real, field: real)
    ensures RowsOf(Updated(math, rs, bke, angle, field)) == RowsOf(rs)
  {
    forall i | 0 <= i < |rs|
      ensures Reactions.Identity(Updated(math, rs, bke, angle, field)[i]) == Reactions.Identity(rs[i])
    {
      Reactions.KinematicsApplied(math, rs[i], bke, angle, field);
    }
  }

  /** Only the last settings pushed count: a second update replaces the first. */
  lemma UpdatedLastWins(math: MathLib, rs: seq<Reactions.ReactionState>,
                        bke1: real, angle1: real, field1: real, bke2: real, angle2: real, field2: real)
    ensures Updated(math, Updated(math, rs, bke1, angle1, field1), bke2, angle2, field2)
         == Updated(math, rs, bke2, angle2, field2)
  {
    forall i | 0 <= i < |rs|
      ensures Reactions.WithKinematics(math, Reactions.WithKinematics(math, rs[i], bke1, angle1, field1), bke2, angle2, field2)
           == Reactions.WithKinematics(math, rs[i], bke2, angle2, field2)
    {
      Reactions.KinematicsLastWins(math, rs[i], bke1, angle1, field1, bke2, angle2, field2);
    }
  }

  /** A reaction already holding the current settings is unchanged by pushing them again (`AddReaction` then `SetParameters` with the same values). */
  lemma UpdatedIdempotent(math: MathLib, rs: seq<Reactions.ReactionState>, bke: real, angle: real, field: real)
    ensures Updated(math, Updated(math, rs, bke, angle, field), bke, angle, field) == Updated(math, rs, bke, angle, field)
  {
    forall i | 0 <= i < |rs|
      ensures Reactions.WithKinematics(math, Reactions.WithKinematics(math, rs[i], bke, angle, field), bke, angle, field)
           == Reactions.WithKinematics(math, rs[i], bke, angle, field)
    {
      Reactions.KinematicsIdempotent(math, rs[i], bke, angle, field);
    }
  }
}
