# spsplot in Dafny

A model of the computational core of spsplot. spsplot is a plotting tool for the Super-Enge Split-Pole Spectrograph (SPS). For a list of nuclear reactions target(projectile, ejectile)residual, it computes the bending radius rho of the ejectile in the spectrograph's magnetic field, once for each known excitation energy of the residual nucleus. It then shows the radii that fall inside a rho window as one row of labelled points per reaction.

The model covers four parts of the program:

- **The nuclide mass table** (`MassLookup`, src/MassLookup.cpp).
  - The AMDC mass file is read into ground-state nuclear masses keyed by the text "(Z,A)", and into element symbols keyed by Z.
  - The lookups answer 1 MeV for an unknown nuclide and "void" for an unknown element.
- **The excitation table** (`ExTable`, src/ExTable.cpp).
  - Blocks `symbol e1 e2 ... end` are read into each residual's excitation energies and the text each was read from.
  - A file that makes the loader loop forever or throw is a distinct outcome.
  - The lookups answer the placeholders `{0}` and `{""}` for a missing symbol.
- **One reaction** (`Reactions`, `Kinematics`; src/Reaction.cpp).
  - `SetReactionData` fixes the reactants, the residual by conservation of A and Z, the symbols, the name and the excitation lists.
  - `SetKinematicParams` applies the beam energy, lab angle and field.
  - `CalculateRho` solves the two-body kinematics for the ejectile's kinetic energy, chooses a root, and converts the ejectile's momentum into rho in cm.
  - The class `Reactions.Reaction` keeps the C++ object's fields. Each method is specified by a function from the old state to the new one.
- **The plotter** (`Plotting`, `ReactionFile`, `RhoWindow`, `GraphBook`; src/SPSPlot.cpp).
  - The class `Plotting.SPSPlot` holds the reactions, the shared settings, the rho window, the validity flag and the graph array.
  - It reads and writes the configuration file: four labelled header lines, a blank line, a column-title line, then one `AT ZT AP ZP AE ZE` row per reaction.
  - It re-applies settings to every reaction and adds reactions.
  - It builds one graph per reaction out of the rho values inside the window.

The supporting modules are:

- `TextStream`, which models the C++ `>>` and `std::getline` semantics the loaders rely on (failed reads, the zero stored by a failed number read, the end of the file).
- `Doubles`, a double that may be NaN. Division by zero gives NaN, and comparisons with NaN are false.
- `Decimal`, for `std::to_string` on integers.
- `LastWins`, for a map built by assignments in file order.

The main results are:

- **Round trips.**
  - A configuration file written by `SaveToFile` parses back to exactly the header and rows that were saved, whenever every printed number reads back as itself (`ReactionFile.ExactSaveThenParse`).
  - Reloading a saved file gives back the same reactant rows (`Plotting.SavedRowsReload`).
  - `to_string` on an int is injective and reads back (`Decimal.IntRoundTrip`).
- **Loaders.**
  - Well-formed mass and excitation files load to exactly the last-write-wins map of their records (`MassLookup.WellFormedFileLoads`, `ExTable.WellFormedFileLoads`).
  - A truncated excitation block hangs the loader, and a file holding nothing but a symbol makes it throw. A symbol after complete blocks re-reads the stale `end` and is stored with empty lists.
  - Every excitation table that does load has index-parallel energy and label lists.
- **Reactions.**
  - A reaction set up once from fresh is usable exactly when the residual has positive A and Z (`Reactions.PreparedReaction`).
  - Applying the same settings twice is the same as applying them once, and the last settings win.
  - The angle round-trips through degrees and radians.
  - When the ejectile's charge times the field is positive, rho is NaN or non-negative; in any nonzero field rho scales as 1/B.
  - A kinematically forbidden excitation gives NaN.
- **Plotter.**
  - Every setter keeps each reaction valid and its identity unchanged.
  - The rho window keeps exactly the in-window points, in order.
  - Narrowing the window commutes with filtering.
  - `GetGraphs` with the corrected bookkeeping never writes outside its array; the bookkeeping as written does (see Findings).

## Model

| member | source | states |
|---|---|---|
| MassLookup.LoadMassTable | src/MassLookup.cpp:19-36 | The loop's two maps are exactly those of the records read after the two skipped lines (`Load`); a file that does not open leaves both maps empty |
| MassLookup.WellFormedFileLoads | src/MassLookup.cpp:25-32 | A file of two header lines followed by one line per record loads to the table built from those records in order |
| MassLookup.ReadRecordLines | src/MassLookup.cpp:27-28 | Record lines are read back as exactly those records, in order |
| MassLookup.KeyParts | src/MassLookup.cpp:29 | The key is "(" then the decimal of Z then "," then the A text then ")" |
| MassLookup.KeyInjective | src/MassLookup.cpp:29 | Two keys are equal if and only if their Z and A parts are, so the key built at lookup (line 42) finds exactly the record with that Z and A text |
| MassLookup.FindMassHit | src/MassLookup.cpp:41-46 | For loaded records, FindMass(Z, A) is (big + small·1e-6 − Z·electron mass)·931.494 MeV/u of the last record whose Z and A text match |
| MassLookup.FindMassMiss | src/MassLookup.cpp:46-49 | With no matching record, FindMass answers 1 |
| MassLookup.FindElementOfRecords | src/MassLookup.cpp:53-62 | FindElement(Z) is the symbol of the last record with that Z, and "void" when there is none |
| LastWins.Build | src/MassLookup.cpp:30-31 | Every key assigned in the loop is in the resulting map |
| LastWins.LastWriteWins | src/MassLookup.cpp:30-31 | A key's value is the value of the last record that assigned it |
| LastWins.Absent | src/MassLookup.cpp:30-31 | A key that no record assigned is not in the map |
| LastWins.BuildSnoc | src/ExTable.cpp:34 | One more record is one more map assignment on top of the earlier ones |
| Decimal.IntDigits | src/Reaction.cpp:32 | `to_string` of an int is an optional '-' followed by one or more digits |
| Decimal.IntRoundTrip | src/MassLookup.cpp:42 | Reading the decimal text of an int gives the int back |
| Decimal.IntToStringInjective | src/MassLookup.cpp:42 | Two ints have the same decimal text if and only if they are equal |
| ExTable.LoadExTable | src/ExTable.cpp:16-36 | The two loops end as `Parse` says: the table, a hang, or a throw; a file that does not open gives the empty table |
| ExTable.ReadBlockParallel | src/ExTable.cpp:28-33 | A block that reaches `end` yields energy and label lists of equal length |
| ExTable.ParseFromWellFormed | src/ExTable.cpp:25-35 | Every table stored by the outer loop has index-parallel lists |
| ExTable.LoadedTableWellFormed | src/ExTable.cpp:16-36 | Any file that loads gives a table whose entries all have index-parallel lists |
| ExTable.ReadBlockOfValues | src/ExTable.cpp:28-33 | A block of numbers followed by `end` yields those numbers and their texts, in order |
| ExTable.ParseBlockLines | src/ExTable.cpp:25-35 | Complete block lines are stored one after another, each replacing an earlier entry with the same symbol |
| ExTable.StoredIsBuild | src/ExTable.cpp:34 | Storing the blocks one by one is the last-write-wins map of all of them |
| ExTable.WellFormedFileLoads | src/ExTable.cpp:25-35 | A file of complete blocks loads to the last-write-wins map from symbol to that block's lists; the lists are cleared between blocks |
| ExTable.ReadBlockRunsOut | src/ExTable.cpp:28-33 | Numbers running into the end of the file never reach `end`, so the inner loop does not stop |
| ExTable.TruncatedBlockHangs | src/ExTable.cpp:28-33 | A final block cut off after a number makes the whole load hang |
| ExTable.LoneSymbolThrows | src/ExTable.cpp:29-31 | A file holding only a symbol hands the empty text to `stod`, which throws |
| ExTable.TrailingSymbolGetsEmptyEntry | src/ExTable.cpp:25-34 | A symbol at the end of a well-formed file re-reads the previous block's stale `end` and is stored with empty lists |
| ExTable.GetListOfExcitations | src/ExTable.cpp:40-48 | The answer is never empty unless the symbol is in the table |
| ExTable.GetListOfExcitationStrings | src/ExTable.cpp:50-58 | The answer is never empty unless the symbol is in the table |
| ExTable.LookupsParallel | src/ExTable.cpp:40-58 | On a hit both lookups answer the stored lists; on a miss they answer [0] and [""]; the two answers always have equal length |
| Reactions.Identified | src/Reaction.cpp:30-40 | Looking up a nucleus keeps its A and Z, sets its mass to `FindMass(Z, A)` and its symbol to the decimal A followed by `FindElement(Z)`, and leaves its energies and momentum alone |
| Reactions.ReactantsSet | src/Reaction.cpp:28-55 | Records the reactants asked for, each with its looked-up mass and decimal-A-plus-element symbol; the residual conserves A and Z; when its A or Z is not positive the early return leaves the residual's symbol and mass, the name and the excitations unchanged; otherwise the residual is looked up, its excitations fetched, the name built and `targetInitialized` set; kinematics are left alone |
| Reactions.ReactantsKeepValid | src/Reaction.cpp:28-55 | Setting reactants keeps the reaction's invariant (parallel lists, rhos only once kinematics are set) |
| Reactions.Reaction.constructor | src/Reaction.cpp:19-22 | A new reaction has both flags false and no data |
| Reactions.Reaction.Copy | src/SPSPlot.cpp:206 | A reaction passed by value is a copy with the same state |
| Reactions.Reaction.SetReactionData | src/Reaction.cpp:28-55 | The new state is `WithReactants` of the old one |
| Reactions.Reaction.IdentifyReactants | src/Reaction.cpp:30-43 | The new state holds the three named nuclei and the residual by conservation |
| Reactions.Reaction.CompleteReaction | src/Reaction.cpp:48-54 | The new state holds the residual's symbol, mass, excitations and name, with `targetInitialized` set |
| Reactions.Reaction.SetExcitations | src/Reaction.cpp:112-115 | The excitation lists become the table's answers for the residual's symbol |
| Reactions.KinematicsApplied | src/Reaction.cpp:57-78 | Without valid reactants nothing changes; otherwise the settings are stored, the projectile moves with the beam energy, the target is at rest, and the rhos are recomputed; identity, name and excitations stay |
| Reactions.KinematicsKeepValid | src/Reaction.cpp:57-78 | Applying settings keeps the invariant and gives every rho a label |
| Reactions.KinematicsIdempotent | src/Reaction.cpp:57-78 | Applying the same settings twice equals applying them once |
| Reactions.KinematicsLastWins | src/Reaction.cpp:57-78 | Applying two sets of settings in turn equals applying the second alone |
| Reactions.Moving | src/Reaction.cpp:64-70 | The projectile's kinetic energy is the beam energy, its total energy adds its mass, and its momentum is sqrt(E² − m²); A, Z, mass and symbol are unchanged |
| Reactions.AtRest | src/Reaction.cpp:72-74 | The target's kinetic energy and momentum are 0 and its energy is its mass; nothing else changes |
| Reactions.Reaction.SetKinematicParams | src/Reaction.cpp:57-78 | The new state is `WithKinematics` of the old one |
| Reactions.Reaction.ApplySettings | src/Reaction.cpp:64-76 | The settings are stored and the projectile and target states are set as `Settled` says |
| Reactions.CalculateRho | src/Reaction.cpp:81-85 | Before kinematics are set the answer is 0 |
| Reactions.RhosFor | src/Reaction.cpp:117-123 | One rho per excitation, each that excitation's `CalculateRho` |
| Reactions.Reaction.CalculateRhos | src/Reaction.cpp:117-123 | The loop leaves `rhos` equal to `RhosFor` of the state |
| Reactions.AngleRoundTrip | src/Reaction.cpp:153-155 | `GetAngle` after `SetKinematicParams` gives back the lab angle in degrees |
| Reactions.PreparedIdentity | src/SPSPlot.cpp:55-58 | A reaction set up from a file row has exactly that row's reactants |
| Reactions.PreparedReaction | src/SPSPlot.cpp:55-58 | A reaction set up from a row is valid and labelled; it is usable exactly when the residual has positive A and Z, and then carries the rhos and angle of the settings, otherwise no rhos |
| Kinematics.ChooseEjectileKE | src/Reaction.cpp:94-101 | The squared root chosen is x1 when x1 is a non-negative number, else x2 when x2 is, else x1; the result is NaN or non-negative |
| Kinematics.ChosenRootIsX1 | src/Reaction.cpp:91-101 | Because x1 = r + sqrt(...) is never below x2 = r − sqrt(...), the chosen energy is always x1 squared |
| Kinematics.ForbiddenGivesNaN | src/Reaction.cpp:88-106 | When r² + s is negative (energetically forbidden), the rho is NaN |
| Kinematics.RhoNotNegative | src/Reaction.cpp:103-106 | When charge times field is positive, rho is NaN or non-negative |
| Kinematics.RhoInverseInField | src/Reaction.cpp:104-106 | For nonzero charge and field, rho·B does not depend on B: rho is inversely proportional to the field |
| ReactionFile.ReadRowsLoopStep | src/SPSPlot.cpp:54-56 | One pass of the row loop reads one row and continues with the rows after it |
| ReactionFile.ReadRowsDone | src/SPSPlot.cpp:54 | When `input>>at` fails the loop has read all rows |
| ReactionFile.RowLines | src/SPSPlot.cpp:197-202 | One line per reaction |
| ReactionFile.RowLinesAt | src/SPSPlot.cpp:197-202 | Line k is the tab-separated A and Z of reaction k's target, projectile and ejectile |
| ReactionFile.SaveLines | src/SPSPlot.cpp:191-202 | Six lines of header and titles, then one per reaction |
| ReactionFile.ReadRowLine | src/SPSPlot.cpp:54-56 | Reading a saved row gives exactly its six integers |
| ReactionFile.ReadRowsStep | src/SPSPlot.cpp:54-60 | A saved row followed by more rows reads as that row followed by the rest |
| ReactionFile.ReadRowLines | src/SPSPlot.cpp:54-60 | Saved rows read back as exactly those rows |
| ReactionFile.ReadLabelledLines | src/SPSPlot.cpp:48-49 | Four labelled header lines read back as their five values |
| ReactionFile.ReadSavedHeader | src/SPSPlot.cpp:191-194 | A written header reads back as the values `<<` printed |
| ReactionFile.SaveThenParse | src/SPSPlot.cpp:184-204 | A saved file parses to the printed header values and exactly the saved rows |
| ReactionFile.ExactSaveThenParse | src/SPSPlot.cpp:184-204 | When every printed number reads back as itself, a saved file parses to exactly the header and rows saved |
| RhoWindow.Window | src/SPSPlot.cpp:147-155 | Every kept point is inside [rhoMin, rhoMax], and no more points are kept than given |
| RhoWindow.WindowMembership | src/SPSPlot.cpp:151-154 | A point is kept if and only if it is given and its rho is inside the window |
| RhoWindow.WindowAppend | src/SPSPlot.cpp:147-155 | Filtering keeps the points' order: the window of a concatenation is the concatenation of the windows |
| RhoWindow.WindowNarrowing | src/SPSPlot.cpp:151 | Filtering by a wider window and then by a narrower one equals filtering by the narrower one |
| RhoWindow.FilterReaction | src/SPSPlot.cpp:147-155 | The loop's `valid_rhos` and `ex_labels` have equal length and pair up as exactly the in-window (rho, label) points, in order |
| GraphBook.GetGraphsAsWritten | src/SPSPlot.cpp:121-129 | As written, the call writes one graph per reaction and leaves `ngraphs` at the reaction count, but never reallocates an existing array |
| GraphBook.AddedReactionOverruns | src/SPSPlot.cpp:121-158 | As written, one reaction, GetGraphs, then a second reaction and GetGraphs again writes past the end of the one-element array |
| GraphBook.EmptyFirstCallOverruns | src/SPSPlot.cpp:121-158 | As written, a first call with no reactions allocates an empty array, and the next call, with one reaction, deletes and writes past its end |
| GraphBook.AsWrittenOverrunsWhenGrown | src/SPSPlot.cpp:140-158 | As written, any call with more reactions than the existing array holds writes out of bounds |
| GraphBook.AsWrittenSafeWithoutGrowth | src/SPSPlot.cpp:121-174 | As written, calls stay in bounds while the reaction count never exceeds the first array's length |
| GraphBook.GetGraphsCorrected | src/SPSPlot.cpp:121-129 | The corrected call leaves an array of exactly the reaction count and stays in bounds from a consistent book |
| GraphBook.CorrectedNeverOverruns | src/SPSPlot.cpp:118-178 | Any sequence of corrected calls, whatever the reaction counts, stays in bounds |
| Plotting.SPSPlot.constructor | src/SPSPlot.cpp:7-11 | No reactions, no graph array, zero graphs, not valid |
| Plotting.SPSPlot.FromFile | src/SPSPlot.cpp:14-18 | Valid exactly when the file opens, and then holds what was read from it; no graph array |
| Plotting.SPSPlot.AttachFile | src/SPSPlot.cpp:29-31 | `validFlag` becomes whether the file opened; an unopened file changes nothing else; an opened one replaces reactions and settings with what was read |
| Plotting.SPSPlot.ReadInputFile | src/SPSPlot.cpp:34-66 | Answers whether the file opened; if it did, the reactions are those prepared from the parsed rows and the settings are the parsed header, otherwise nothing changes |
| Plotting.SPSPlot.ReadSettings | src/SPSPlot.cpp:48-53 | Reading the header and skipping three lines leaves the header and the stream the rows are parsed from |
| Plotting.SPSPlot.ReadReactions | src/SPSPlot.cpp:54-60 | The loop collects one prepared reaction per parsed row, in file order |
| Plotting.SPSPlot.NewReaction | src/SPSPlot.cpp:55-58 | A new reaction with the row's reactants and the file's settings applied |
| Plotting.PreparedAll | src/SPSPlot.cpp:54-60 | One reaction per row read |
| Plotting.PreparedAllSnoc | src/SPSPlot.cpp:59 | One more row read is one more reaction pushed at the end |
| Plotting.PreparedAllValid | src/SPSPlot.cpp:54-60 | Every loaded reaction is valid and labelled, and usable exactly when its residual exists |
| Plotting.PreparedAllRows | src/SPSPlot.cpp:54-60 | The loaded reactions carry exactly the rows read, in order |
| Plotting.ParsedReactions | src/SPSPlot.cpp:48-63 | What the two halves of the reader produce is the prepared reactions and header of the parsed file |
| Plotting.SavedRowsReload | src/SPSPlot.cpp:184-204 | Reloading a saved file gives reactions with the saved rows, in order |
| Plotting.Updated | src/SPSPlot.cpp:69-73 | Re-applying settings keeps the number of reactions |
| Plotting.UpdatedKeepsValid | src/SPSPlot.cpp:69-73 | Every reaction stays valid and labelled after an update |
| Plotting.UpdatedKeepsRows | src/SPSPlot.cpp:69-73 | An update changes no reaction's reactants |
| Plotting.UpdatedLastWins | src/SPSPlot.cpp:76-82 | Two updates in turn equal the second alone |
| Plotting.UpdatedIdempotent | src/SPSPlot.cpp:69-73 | Updating twice with the same settings equals updating once |
| Plotting.SPSPlot.UpdateReactions | src/SPSPlot.cpp:69-73 | Each reaction, in place, becomes its state after `SetKinematicParams` with the stored settings |
| Plotting.SPSPlot.SetParameters | src/SPSPlot.cpp:76-82 | When valid, stores the three settings and updates every reaction with them; otherwise changes nothing |
| Plotting.SPSPlot.SetB | src/SPSPlot.cpp:85-89 | When valid, stores the field and updates every reaction; otherwise changes nothing |
| Plotting.SPSPlot.SetTheta | src/SPSPlot.cpp:92-96 | When valid, stores the angle and updates every reaction; otherwise changes nothing |
| Plotting.SPSPlot.SetBeamKE | src/SPSPlot.cpp:99-103 | When valid, stores the beam energy and updates every reaction; otherwise changes nothing |
| Plotting.SPSPlot.SetRhoRange | src/SPSPlot.cpp:106-110 | When valid, stores the window; otherwise changes nothing |
| Plotting.SPSPlot.AddReaction | src/SPSPlot.cpp:206-209 | Appends the reaction with the plot's current settings applied, keeping the earlier reactions |
| Plotting.SPSPlot.GetGraphs | src/SPSPlot.cpp:118-178 | Invalid: null, and the count, the array and its contents are unchanged. Valid: an array of one graph per reaction (with the corrected bookkeeping), graph i being reaction i's name, index i and in-window points |
| Plotting.SPSPlot.FillGraphs | src/SPSPlot.cpp:141-173 | Fills slot i with reaction i's graph for the current window |
| Plotting.SPSPlot.SaveToFile | src/SPSPlot.cpp:184-204 | Writes nothing when the file cannot be created; otherwise writes the header of the current settings and one row per reaction, in order |
| Plotting.RowsOf | src/SPSPlot.cpp:197-202 | One row per reaction |

## Left out

- The GUI (src/SPSPlotMainFrame.cpp, src/ReactionCreationFrame.cpp) and the program entry points (src/main.cpp, etc/main_no_gui.cpp) are not part of this model. The reaction-creation dialog rejects only a negative residual A and never checks Z, so a residual with A = 0 or any Z ≤ 0 reaches `SetReactionData`, which rejects it; the model follows `SetReactionData`.
- Building the ROOT `TGraph`s and their `TLatex` labels, the styling, axis titles and `SetMaximum(ngraphs)` are not modelled. A graph is the `Series` of data fed into it. That `SetMaximum` reads `ngraphs` before line 174 updates it is therefore not captured.
- A reaction with no rho inside the window makes `&valid_rhos[i][0]` index an empty vector (undefined behaviour in C++). The model gives it an empty `Series`.
- Integer width: A, Z and the residual's `At+Ap - Ae` and `Zt+Zp - Ze` are C++ `int` arithmetic, modelled as unbounded `int`; overflow (undefined behaviour in C++) is not modelled.
- Floating point: doubles are modelled as exact reals plus NaN, with no rounding or overflow. Division by zero is folded into NaN rather than ±infinity.
- `sqrt`, `cos` and `pow(x, 2.)` are a `MathLib` parameter, of which only the sign and NaN behaviour of `sqrt` is assumed.
- Text-to-number conversion (`stod`, `>>` into int and double) is carried by each token: each token says what it converts to. The number format is not modelled.
- How `<<` prints a double is a `show` parameter of `SaveToFile`. Exact reloading is proved only when what is printed reads back as the same value; default stream precision rounds to six digits.
- Opening, closing and creating files is a parameter (`Option` of the file's lines, `canCreate`). The `std::cerr` diagnostics are left out.
- The data files `data/mass.txt` and `data/excitations.dat` are not part of this model. Their expected format is that of the loaders' loops.
- The global `MASS` and `EX` tables are values passed to the operations that use them, loaded once.
- Getters other than `GetAngle` are plain field reads and are not modelled separately.
- Values C++ leaves uninitialised are modelled as 0, the empty string or no list: a reaction's fields before `SetReactionData`, and the header locals of `ReadInputFile` when the header is malformed.
- ExTable.LoadExTable: an endless inner loop and a `stod` exception are results (`Hangs`, `Throws`) rather than non-termination and unwinding.
- Plotting.SPSPlot.AddReaction, Plotting.SPSPlot.ReadInputFile, Plotting.SPSPlot.AttachFile, Plotting.SPSPlot.FromFile: they require the excitation table to be well formed (index-parallel lists, which every table that loads is, per `ExTable.LoadedTableWellFormed`). `AddReaction` also requires its argument to satisfy the `Reaction` invariant that all of that class's methods keep.
- The plotter holds its reactions by value, as `std::vector<Reaction>` does. Reaction states, not shared objects, are stored, so aliasing between a caller's reaction and the stored copy is not modelled.
- Plotting.SPSPlot.GetGraphs: it is modelled with the corrected graph-array bookkeeping (see Findings). The source's own bookkeeping is modelled separately in `GraphBook.GetGraphsAsWritten`.
- Where the written description of the program and the code differ, the model follows the code:
  - The field is used in kG as read. The unused kG-to-tesla constant is not applied.
  - The setters are guarded by `validFlag` only, not by the reactions being non-empty.
  - Loading a file that opens always clears the old reactions and replaces the settings. A malformed file keeps every header value read before the first failed extraction, gives the later ones the 0 that stands in for an uninitialised local, and keeps the rows read before the first failed `input>>at`. A file with a good header and malformed rows keeps the whole header. There is no snapshot and rollback.
  - `GetGraphs` is not free of side effects: it updates `ngraphs` and the graph array.
  - Invalid reactants are not guaranteed to leave a reaction unusable. A failing second `SetReactionData` on a reaction whose first call succeeded returns early (src/Reaction.cpp:44-47). It keeps the earlier `target_initialized` and the stale residual symbol, mass, excitations and name (`Reactions.ReactantsSet`). The program itself never reuses a `Reaction` this way: each file row and each dialog entry gets a fresh one.
  - `AddReaction` does not check that the reaction's reactants were set. An unset one is stored and, as in the C++ code, has no rhos.

## Findings

| source | as written | input that shows it | evidently intended | confidence | as-written member | corrected member |
|---|---|---|---|---|---|---|
| src/SPSPlot.cpp:121-174 | `graph_array` is allocated with the `ngraphs` of the first call and never reallocated, yet each later call deletes `ngraphs` graphs and writes `m_Reactions.size()` graphs into it | load one reaction, call `GetGraphs`, `AddReaction` a second one, call `GetGraphs`: graph 1 is written past the one-element array. Or call `GetGraphs` with no reactions, then add one and call again: it deletes and writes past an empty array | reallocate the array whenever the reaction count differs from its length, so every call writes inside it | not executed | GraphBook.GetGraphsAsWritten, GraphBook.AddedReactionOverruns | GraphBook.GetGraphsCorrected, GraphBook.CorrectedNeverOverruns |
