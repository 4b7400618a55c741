# itp2d core in Dafny

itp2d computes the lowest eigenstates of a two-dimensional single-particle
Hamiltonian by imaginary-time propagation. The C++ solver repeatedly applies
a split-operator propagator, orthonormalises the states, measures the energies
and decides from their history when each state has converged. Python scripts
around it analyse the spectrum and post-process the build and the output.
This project models the sequential logic around the numerical engine and
proves properties of it. Numbers are `real`, a complex number is a pair of
reals, and π is an opaque positive constant.

The modules follow the program's structure:

- `Parser` (parser.dfy): the generic `name(v1, v2, ...)` parameter-string
  parser. Its number reader is modelled on the grammar of a decimal double.
- `Potentials`, `Noises`, `Convergence`, `Constraints`: the description
  parsers built on it, with the validators of each named type. Also the
  convergence tests on an energy history and the geometric constraint
  predicates, including `!` negation.
- `Configuration` (parameters.dfy): the `Parameters` defaults and setters.
- `CommandLine` (cmdline.dfy): the validation and derivation rules of
  the command-line parser. Each option is a record of whether it was given
  and its value.
- `Layouts`, `States`, `StateArrays`, `StateSets`: the grid layout and
  row-major indexing; pointwise state operations, including the in-place
  backward shift; slicing and aliasing of state arrays; and the convergence
  flag/counter bookkeeping.
- `Transforms`: the 18 transform kinds, their inverse pairing, frequency
  tables and normalisation factors.
- `Operators`, `Splits`: the operator product and sum algebra, with
  workspace sizing; the second-order split factor list; and the multiproduct
  split coefficients.
- `Simulation` (simulation.dfy): the `ITPSystem` control state machine.
  This covers the initial time step, `change_time_step`, `step`, both
  convergence checks, the recording of energies and `finish`. Propagation,
  orthonormalisation and energy evaluation are inputs.
- `Sorting`: the ascending order used when energies are recorded.
- `Spectrum` (spectrum.dfy): `scripts/analyze_spectrum.py`. It covers
  unfolding, the staircase, nearest-neighbour spacings, window sampling, the
  degree-1 fit, the trapezoid rule and the rigidity Δ3.
- `DepMunger`, `PathNames`: `scripts/depmunger.py` and the two `os.path`
  helpers it uses.
- `DrawArt`: the argument checks, state selection and tile arithmetic of
  `scripts/itp_draw_art.py`.
- `Complexes`, `Util`: shared helpers.

Where the C++ headers and `.cpp` files disagree (noise.hpp,
potentialtypes.hpp and the impurity options of commandlineparser.hpp), the
model follows the `.cpp` files.

Where the documented behaviour and the code disagree, the model follows the
code:
- the constraint help text advertises an `angle` constraint that the parser
  rejects (`Constraints.AngleUnknown`);
- the default potential name `default` is refused by the potential parser
  (`Potentials.DefaultNameUnknown`).

Six places where the code evidently does not do what was intended are listed
under Findings. Each is modelled both as written and as corrected.

## Model

| member | source | states |
|---|---|---|
| CommandLine.FirstNonPositive | src/commandlineparser.cpp:286-289 | the first time step that is not positive is found, and none is found exactly when every time step is positive |
| CommandLine.Validate | src/commandlineparser.cpp:264-299 | the validation block reports no error exactly when every condition it checks holds |
| CommandLine.RefusedBeforeBuilding | src/commandlineparser.cpp:264-300 | options that fail validation are refused with the first failing check before anything is built; accepted ones go on to building |
| CommandLine.SaveSwitches | src/commandlineparser.cpp:265-277 | an accepted command line has at most one save switch, which decides what is saved; with none the constructed choice stays |
| CommandLine.GridSize | src/commandlineparser.cpp:279-284 | `--size` excludes `--sizex` and `--sizey` and sets both dimensions; every size is positive |
| CommandLine.OrderHalved | src/commandlineparser.cpp:295-297 | the splitting order is positive and even, and the half order stored is half of it |
| CommandLine.StateCounts | src/commandlineparser.cpp:348-357 | with both counts given they are used as given and are consistent; with only `--states` the total is 25% more rounded down; with only the total every state is needed |
| CommandLine.Switches | src/commandlineparser.cpp:332-342 | each `-v` raises and each `-q` lowers the verbosity by one from the default; the switches select the Dirichlet boundary and the memory-hungry orthonormalisation exactly when given |
| CommandLine.GridLength | src/commandlineparser.cpp:340 | the grid length is the given one, times pi with `--pi`, and is positive |
| CommandLine.LengthPositive | src/commandlineparser.cpp:285 | a positive length stays positive when scaled by pi |
| CommandLine.TimeSteps | src/commandlineparser.cpp:343-346 | the given time steps follow the constructed list in the order given and are all positive; the minimum step is not negative and the step limit and divisor are positive |
| CommandLine.ImpurityArguments | src/commandlineparser.cpp:318-323 | the noise type "impurities" needs both impurity descriptions, and any other noise type refuses them |
| CommandLine.TestsMustParse | src/commandlineparser.cpp:312-313 | a convergence-test description the description parser refuses makes the whole parse fail; an accepted parse holds the parsed tests |
| CommandLine.NothingGiven | src/commandlineparser.hpp:123-138 | the options with nothing given pass every validation check |
| CommandLine.HighmemOnly | src/commandlineparser.cpp:342 | with only `--highmem` given the parse succeeds and selects the memory-hungry orthonormalisation |
| CommandLine.TotalOnlyOverflows | src/commandlineparser.cpp:293-294 | when only the total is given with some ignored lowest states, the parse accepts counts that the state-count check would refuse |
| CommandLine.TotalOnlyExample | src/commandlineparser.cpp:348-357 | `-N 10 --ignore-lowest 2` is accepted with 10 states, all 10 needed and 2 ignored, which do not fit |
| CommandLine.ParseChecked | src/commandlineparser.cpp:293-294 | the parse with the state-count check applied to the derived counts only ever yields consistent counts |
| CommandLine.CheckedParseAgrees | src/commandlineparser.cpp:293-357 | the checked parse differs from the parse as written exactly on accepted command lines whose derived counts do not fit, and agrees wherever it succeeds |
| Complexes.NormSq | src/state.cpp:48 | `norm` of a complex number, its squared modulus, is never negative |
| Complexes.NormSqPositive | src/state.cpp:48 | the squared modulus is zero only for zero |
| Complexes.DistanceZero | src/state.cpp:48 | the squared modulus of a difference vanishes exactly between equal numbers |
| Complexes.Div | src/state.hpp:188 | the quotient by a non-zero b is the number that b multiplies into the dividend |
| Complexes.MulDivCancel | src/state.hpp:182-188 | dividing by a non-zero b undoes multiplying by b |
| Constraints.CheckIsDistanceCheck | src/constraint.hpp:59-104 | the squared-distance checks agree with the `Constraint::check` overloads on hypot(x, y): no constraint accepts everything, an inverse negates its base, the radial check is hypot ≤ r, and the ring check is minr ≤ hypot ≤ minr + width |
| Constraints.DistanceAtMost | src/constraint.hpp:87-89 | for a distance h with h² = d, h ≤ r exactly when r ≥ 0 and d ≤ r² |
| Constraints.DistanceAtLeast | src/constraint.hpp:101-104 | for a distance h with h² = d, h ≥ r exactly when r ≤ 0 or d ≥ r² |
| Constraints.MakeMaxRadius | src/constraint.cpp:101-107 | the numeric constructor succeeds exactly for r ≥ 0 and otherwise refuses a negative radius |
| Constraints.MakeRing | src/constraint.cpp:121-129 | the numeric ring constructor succeeds exactly for a non-negative inner radius and width, checking the inner radius first |
| Constraints.NoConstraintFrom | src/constraint.cpp:57-61 | `NoConstraint(params)` succeeds exactly for an empty list and refuses any parameter |
| Constraints.MaxRadiusFrom | src/constraint.cpp:92-107 | the radial constraint needs exactly one parameter, which must not be negative |
| Constraints.RingFrom | src/constraint.cpp:111-129 | the ring needs exactly two parameters, neither of them negative |
| Constraints.FromPair | src/constraint.cpp:37-53 | every constraint built is valid, and a name that is neither negated nor known is an unknown constraint type naming it |
| Constraints.ParseConstraintDescription | src/constraint.cpp:23-35 | a description the generic parser refuses becomes an unknown constraint type naming the whole text, and every constraint built is valid |
| Constraints.ParsedDispatch | src/constraint.cpp:28-34 | a description the generic parser accepts is dispatched on its name and values |
| Constraints.DescribedConstraint | src/constraint.cpp:23-53 | a written-out "name(v1,...,vn)" is dispatched on that name and those numbers |
| Constraints.BangsNest | src/constraint.cpp:41-44 | k leading '!' wrap k owning inverses around the constraint the plain name describes, with the same parameters, and fail exactly as it fails |
| Constraints.InvertedCheck | src/constraint.hpp:73 | k inverses accept what the base accepts when k is even and exactly what it refuses when k is odd |
| Constraints.DoubleInverse | src/constraint.hpp:73 | a double inverse agrees with its base everywhere |
| Constraints.Aliases | src/constraint.cpp:45-50 | no/none/zero, maxr/maxradius and ring/annulus reach the same constructors |
| Constraints.AngleUnknown | src/constraint.cpp:45-52 | "angle", which the help text of the command line lists, is an unknown constraint type |
| Constraints.ParsedOwnsAll | src/constraint.cpp:43 | every inverse the parser builds is built from a pointer and so owns its base |
| Constraints.OwnedChainFreed | src/constraint.cpp:65-82 | destroying a fully owning chain deletes every object in it exactly once; an inverse built from a reference deletes only itself |
| Convergence.NoTestFrom | src/convergence.cpp:59-63 | the no-test constructor succeeds exactly on an empty value list |
| Convergence.OneStepFrom | src/convergence.cpp:67-71 | the one-step constructor succeeds exactly on an empty value list |
| Convergence.AbsoluteFrom | src/convergence.cpp:110-116 | the absolute-change constructor takes exactly one value, the limit |
| Convergence.RelativeFrom | src/convergence.cpp:82-88 | the relative-change constructor takes exactly one value, the limit |
| Convergence.DeviationFrom | src/convergence.cpp:138-150 | the deviation constructor takes one or two values; one gives the relative limit with a zero difference limit, two give both |
| Convergence.FromPair | src/convergence.cpp:40-51 | each name and its aliases reach their constructor, and any other name is an unknown convergence type carrying the whole text |
| Convergence.ParseConvergenceDescription | src/convergence.cpp:28-37 | text the parameter parser refuses raises an invalid potential type error (sic) carrying the whole text |
| Convergence.ParsedDispatch | src/convergence.cpp:38-51 | a readable description is dispatched on its parsed name and values |
| Convergence.DescribedTest | src/convergence.cpp:28-51 | a written-out `name(v1, ..., vn)` with surrounding whitespace is dispatched on that name and those numbers |
| Convergence.Aliases | src/convergence.cpp:41-48 | none/no/null, onestep/one-step, absEchange/absEdelta and relEchange/relEdelta each reach the same constructor |
| Convergence.ShortHistoryFails | src/convergence.cpp:118-120 | every test except the one-step test fails while fewer than two steps are recorded; the no-test always fails |
| Convergence.OneStepPasses | src/convergence.cpp:73-78 | the one-step test passes exactly on the first step after a time-step change for a state already converged at that time step |
| Convergence.RelativeInReals | src/convergence.cpp:90-100 | the relative test passes exactly when the previous energy is non-zero and the absolute change divided by it is below the limit |
| Convergence.RelativeIsScaledAbsolute | src/convergence.cpp:90-128 | for a positive previous energy, the relative test with limit L agrees with the absolute test with limit L times that energy |
| Convergence.DeviationWithoutDifference | src/convergence.cpp:139-160 | with the zero difference limit a one-value description builds, the deviation test compares only the latest relative deviation |
| Convergence.DeviationInReals | src/convergence.cpp:152-161 | with non-zero energies, the deviation test passes exactly when the latest relative deviation is below its limit or has changed by less than the difference limit |
| Convergence.LimitMonotone | src/convergence.cpp:90-161 | a looser limit passes every state a stricter limit of the same test passes |
| Convergence.OlderHistoryIgnored | src/convergence.cpp:152-161 | prepending older steps to the history changes no test's verdict |
| PathNames.RFind | scripts/depmunger.py:17 | the index found is -1 or a position holding the character |
| PathNames.RFindIsLast | scripts/depmunger.py:17 | no occurrence of the character follows the one found |
| PathNames.StripTrailingSlashes | scripts/depmunger.py:17 | stripping keeps a prefix that does not end in a slash, and everything removed is slashes |
| PathNames.SplitParts | scripts/depmunger.py:17 | the tail of a split is the end of the path after its last slash, with no slash in it; the head is what precedes it, possibly without its trailing slashes |
| PathNames.SplitJoined | scripts/depmunger.py:17 | a non-empty directory without a trailing slash and a file name joined by a slash split back into the two |
| PathNames.SplitExt | scripts/depmunger.py:18 | the stem and the extension concatenate to the name |
| PathNames.ExtensionShape | scripts/depmunger.py:18 | an extension is empty or starts with a dot and holds no further dot and no slash |
| PathNames.SplitExtJoined | scripts/depmunger.py:18 | a stem not ending in a slash or dot and an extension of a dot and other characters split back into the two |
| PathNames.NoDotNoExt | scripts/depmunger.py:18 | a name without a dot has no extension |
| DepMunger.Find | scripts/depmunger.py:10 | the index found is the first occurrence of the character, and -1 exactly when there is none |
| DepMunger.Partition | scripts/depmunger.py:8-13 | the three parts concatenate to the text; without the separator the result is the text and two empty strings; otherwise the middle part is the separator and the first holds none |
| DepMunger.PartitionAfterTarget | scripts/depmunger.py:24 | a target without a colon is cut off at the colon after it |
| DepMunger.JoinContinuations | scripts/depmunger.py:23 | removing backslash-newlines never lengthens the text and leaves text without a backslash unchanged |
| DepMunger.JoinsContinuedLines | scripts/depmunger.py:23 | joining gcc's backslash-continued lines gives the lines one after another |
| DepMunger.WordLength | scripts/depmunger.py:26 | the leading run of non-white-space characters is measured exactly |
| DepMunger.Words | scripts/depmunger.py:26 | splitting yields only non-empty words without white space |
| DepMunger.WordsOfJoined | scripts/depmunger.py:26-30 | splitting a line of words joined by spaces gives back the words |
| DepMunger.LastSuffix | scripts/depmunger.py:6 | the place found is below the bound and is one where the pattern can end |
| DepMunger.SuffixIsLast | scripts/depmunger.py:6 | no place after the one found can end the pattern, as the greedy match demands |
| DepMunger.SubFunc | scripts/depmunger.py:15-20 | a replacement is produced only for a name with extension .cpp or .hpp, and it is obj/ followed by the base name and .o |
| DepMunger.Rewrite | scripts/depmunger.py:25 | a word in which the pattern matches nowhere is kept as it is |
| DepMunger.RewriteStaysWord | scripts/depmunger.py:25-26 | a rewritten word stays a single word or becomes empty and disappears from the split |
| DepMunger.RewriteWhole | scripts/depmunger.py:25 | a word ending in .cpp or .hpp after at least one character is replaced whole by the replacement, or removed when there is none |
| DepMunger.SourceBecomesObject | scripts/depmunger.py:19-20 | a dependency on dir/base.cpp becomes one on obj/base.o |
| DepMunger.HeaderBecomesObjectOfItsSource | scripts/depmunger.py:19-20 | a dependency on dir/base.hpp becomes obj/base.o if dir/base.cpp exists and is removed otherwise |
| DepMunger.HeaderWithoutDirectory | scripts/depmunger.py:17-19 | a header without a directory is looked up as /base.cpp at the root of the file system |
| DepMunger.OtherDependencyKept | scripts/depmunger.py:25 | a dependency without .cpp or .hpp after its first character, such as a system header, is kept as it is |
| DepMunger.Dependencies | scripts/depmunger.py:26-29 | the dependencies are exactly the non-empty rewritten words other than the target, each once |
| DepMunger.Munge | scripts/depmunger.py:22-29 | the script's result is the target and the dependency set of the rewritten words after the first colon; a target cut at a colon holds no colon |
| DepMunger.MungesGccRule | scripts/depmunger.py:22-29 | a gcc rule of continued lines yields its target and the deduplicated rewritten words without the target |
| DepMunger.Output | scripts/depmunger.py:30 | the printed line starts with the target followed by a colon |
| DepMunger.ObjectsKept | scripts/depmunger.py:25-29 | object files, which no rewrite touches, are their own dependencies |
| DepMunger.OutputIsFixedPoint | scripts/depmunger.py:22-30 | feeding the printed rule back through the script gives the same target and dependency set |
| DrawArt.Decimal | scripts/itp_draw_art.py:96 | the decimal spelling of a number is a non-empty run of digits whose value is the number, without leading zeros |
| DrawArt.DecimalInjective | scripts/itp_draw_art.py:96 | different numbers are spelled differently |
| DrawArt.ParseUnsigned | scripts/itp_draw_art.py:38 | a number written in decimal with white space around it reads back as that number |
| DrawArt.ParseSigned | scripts/itp_draw_art.py:38 | a number after a plus or minus sign, with white space around the sign, reads back with that sign |
| DrawArt.ParseTrailingJunk | scripts/itp_draw_art.py:38-40 | a character that is neither a digit nor white space after the digits, as in "1.5" or "3x", makes the argument unreadable |
| DrawArt.ParseIndex | scripts/itp_draw_art.py:37-42 | an accepted index is the number the argument reads as; an unreadable argument is reported as not a number, and a negative number exactly when it reads as one below zero |
| DrawArt.IndexRoundTrip | scripts/itp_draw_art.py:37-43 | every number's spelling is accepted as that index; with a minus sign in front only "-0" is accepted and every other one is refused as negative |
| DrawArt.ParseIndices | scripts/itp_draw_art.py:35-43 | the indices are accepted exactly when every argument is, in order; otherwise the error is that of the first argument that fails |
| DrawArt.ParseEach | scripts/itp_draw_art.py:36-43 | each argument is read in turn, stopping at the first failure |
| DrawArt.ResolveSlot | scripts/itp_draw_art.py:54-56 | a slot is accepted exactly when it lies in [-slots, slots); the error names the slot and the count; an accepted slot is the stored set it indexes, counting negative slots from the end |
| DrawArt.DefaultSlotIsLast | scripts/itp_draw_art.py:54-56 | the default slot -1 is the last stored set, and a file with no sets refuses it |
| DrawArt.Select | scripts/itp_draw_art.py:65-72 | the given indices when there are any; otherwise 0, 1, ... up to every state with --all, or up to the states meant to converge plus the ignored lowest ones |
| DrawArt.SelectionExists | scripts/itp_draw_art.py:65-72 | without explicit indices every selected state exists in the file exactly when --all is given or the file holds at least the states meant to converge and the ignored ones |
| DrawArt.ISqrt | scripts/itp_draw_art.py:74-76 | the integer square root is the largest number whose square does not exceed the argument |
| DrawArt.ISqrtUnique | scripts/itp_draw_art.py:74-76 | no other number satisfies the square-root bounds |
| DrawArt.Square | scripts/itp_draw_art.py:73-75 | --square keeps a prefix of the selection whose length is the largest perfect square not above it |
| DrawArt.SquareIsLargest | scripts/itp_draw_art.py:73-75 | no larger square fits into the selection |
| DrawArt.SquareIsSquare | scripts/itp_draw_art.py:74 | after the cut the count is a perfect square |
| DrawArt.Grid | scripts/itp_draw_art.py:76-77 | the mosaic has floor(sqrt(n)) columns and enough rows for every state with gaps only in the last row; with nothing to draw the division fails |
| DrawArt.GridNearlySquare | scripts/itp_draw_art.py:76-77 | the mosaic has at least as many rows as columns and at most two more |
| DrawArt.Tile | scripts/itp_draw_art.py:93 | each tile ends within the canvas width |
| DrawArt.TileInside | scripts/itp_draw_art.py:80-93 | every tile of a drawn state lies inside the canvas of columns * Mx by rows * My pixels |
| DrawArt.TilesApart | scripts/itp_draw_art.py:93 | different states get tiles that do not overlap |
| DrawArt.Lay | scripts/itp_draw_art.py:76-94 | the layout succeeds exactly for a non-empty selection, places one tile per state at its row-by-row position, and has room for all of them |
| DrawArt.MosaicFits | scripts/itp_draw_art.py:80-94 | every tile of the mosaic lies on the canvas and no two overlap |
| DrawArt.DataFile | scripts/itp_draw_art.py:31-34 | the data file is the first positional argument, or data/itp2d.h5 without one |
| DrawArt.OutputName | scripts/itp_draw_art.py:44-45 | a non-empty --output name is used as given |
| DrawArt.DefaultOutputName | scripts/itp_draw_art.py:46-47 | otherwise the data file's extension gives way to ".png", also for an empty --output |
| DrawArt.DefaultImage | scripts/itp_draw_art.py:31-47 | without arguments the combined image is data/itp2d.png |
| DrawArt.Unescape | scripts/itp_draw_art.py:48 | Python's `%` on the stem part of the per-state template: a stem without '%' comes out unchanged |
| DrawArt.UnescapeEscape | scripts/itp_draw_art.py:48 | formatting an escaped text (every '%' doubled) gives the text back |
| DrawArt.EscapeUnescape | scripts/itp_draw_art.py:48 | formatting succeeds only on escaped texts: whatever it accepts is the escape of its result |
| DrawArt.EscapeDoubles | scripts/itp_draw_art.py:48 | escaping doubles the number of '%' and keeps a text without any |
| DrawArt.UnescapeExamples | scripts/itp_draw_art.py:48 | "%%" formats to "%", "100%%" to "100%", and "run%d" cannot be formatted |
| DrawArt.StateName | scripts/itp_draw_art.py:96 | `out_multifilename % index` succeeds exactly when the combined stem formats, and then gives the formatted stem, the index's digits and ".png"; otherwise the script stops on the combined name |
| DrawArt.StateNameReadsBack | scripts/itp_draw_art.py:48 | splitting the extension off a state's image name gives back the formatted stem followed by the state's index, and ".png" |
| DrawArt.StateNamesDistinct | scripts/itp_draw_art.py:96 | whether a name formats does not depend on the index, and different states are saved under different names |
| DrawArt.DigitsOfStateName | scripts/itp_draw_art.py:48 | the state's digits sit between the formatted stem and ".png" |
| DrawArt.StateNameNotCombined | scripts/itp_draw_art.py:48 | no state's image overwrites the combined one, also when the stem holds escaped '%' |
| DrawArt.Chosen | scripts/itp_draw_art.py:65-75 | the states drawn are a prefix of the selection, a perfect square in number with --square |
| DrawArt.Plan | scripts/itp_draw_art.py:31-97 | the script succeeds exactly when every index argument reads, the slot lies in [-slots, slots), the chosen selection is non-empty, every chosen state is in the file and, with --separate, the name template formats; it then draws the data file given (or the default) into the `--output` or default image, from the resolved slot, the states `Chosen` picks laid out by `Lay`, with one image per state named by `StateName`; the failures come in the script's order: a bad index first, then `InvalidSlot`, then `EmptyMosaic` for an empty selection, then the loop's `NoSuchState` or `BadNameTemplate` |
| DrawArt.DrawLoop | scripts/itp_draw_art.py:85-97 | the loop succeeds exactly when every index is below the number of states and, with --separate, the name template formats; it then names every state in drawing order; a missing state is reported at its first position, with all earlier indices present; a template error comes with --separate after a present first state |
| DrawArt.SeparateNamesDistinct | scripts/itp_draw_art.py:96-97 | states with different indices get different image files |
| Layouts.Positions | src/datalayout.cpp:27-35 | the position table of a grid has one entry per box, entry i being the centre (2i + 1 - size)·dx/2 |
| Layouts.PositionIsBoxCentre | src/datalayout.cpp:29-32 | each position is the midpoint of its box on a grid of length size·dx centred on the origin |
| Layouts.PositionsSymmetric | src/datalayout.cpp:30-35 | the positions are symmetric about the origin: position i is minus position size-1-i |
| Layouts.PositionSpacing | src/datalayout.cpp:30-35 | consecutive positions lie exactly one grid spacing dx apart |
| Layouts.Posx | src/datalayout.cpp:30-32 | `posx` is the position table built from sizex and dx |
| Layouts.Posy | src/datalayout.cpp:33-35 | `posy` is the position table built from sizey and dx |
| Layouts.TestLayouts | src/test_datalayout.cpp:25-49 | the unit-test layouts: a 16 x 8 grid of spacing 0.5 has 128 points and is 8 by 4 long; 5 and 3 boxes of width 0.5 sit at -1..1 and -0.5..0.5; 2 boxes at ±0.25 |
| Layouts.Value | src/datalayout.hpp:64-72 | `value(a, x, y)` reads the entry at the row-major index y·sizex + x, for both overloads |
| Layouts.IndexInGrid | src/datalayout.hpp:64-67 | inside the grid the index stays below N, and dividing it by sizex gives back the column as remainder and the row as quotient |
| Layouts.IndexReachesAll | src/datalayout.hpp:64-67 | every index below N is reached from the grid point (k mod sizex, k div sizex) |
| Layouts.IndexInjective | src/datalayout.hpp:64-67 | distinct grid points have distinct indices |
| Layouts.CellOf | src/datalayout.hpp:64-67 | entry k below N lies in column k mod sizex and row k div sizex, both inside the grid |
| Layouts.TestIndexing | src/test_datalayout.cpp:51-61 | on a 2 x 2 grid the entries 0, 1, 2, 3 are read at (0,0), (1,0), (0,1), (1,1) |
| Layouts.PreviousColumn | src/datalayout.hpp:64-67 | the entry before one that does not start a row is its left neighbour in the same row |
| Layouts.EqualIsSameGrid | src/datalayout.hpp:52-62 | two layouts compare equal exactly when they have the same sizes and spacing (the same object always does), `!=` is the negation, and equality is symmetric |
| Noises.NoNoiseFrom | src/noise.cpp:52-56 | the no-noise constructor succeeds exactly on an empty value list and refuses any parameter |
| Noises.GaussianNoiseFrom | src/noise.cpp:60-77 | the Gaussian noise constructor accepts exactly three or five values; three give density and the two means with spreads of 20% of the means, five give every field in order |
| Noises.FromPair | src/noise.cpp:39-47 | "no", "none" and "zero" reach the no-noise constructor, "gaussian", "gaussians" and "gaussiannoise" the Gaussian one, and any other name is an unknown noise type carrying the whole text |
| Noises.ParseNoiseDescription | src/noise.cpp:28-38 | text the parameter parser refuses is an invalid noise type naming the whole text, and an unknown-type error always carries the whole text |
| Noises.ParsedDispatch | src/noise.cpp:39-47 | a readable description is dispatched on its parsed name and values |
| Noises.DescribedNoise | src/noise.cpp:28-47 | a written-out `name(v1, ..., vn)` with surrounding whitespace is dispatched on that name and those numbers |
| Noises.ParametersRoundTrip | src/noise.cpp:52-77 | every noise object is rebuilt by its own constructor from its parameter list |
| Noises.ShortFormDefaults | src/noise.cpp:23-24 | giving only the two means is the same as giving spreads of 20% of each mean |
| Noises.Aliases | src/noise.cpp:42-45 | the aliases of each noise type reach the same constructor whatever the text |
| Noises.OtherNamesUnknown | src/noise.cpp:46-47 | a shortened name such as "gauss", or the empty name, is an unknown noise type |
| Operators.Zeros | src/state.hpp:109-111 | the zeroed state has the same size and every value zero |
| Operators.Apply | src/operators.hpp:48-52 | applying any operator keeps the number of values of the state, given primitives that do |
| Operators.Scale | src/state.hpp:164-169 | scaling multiplies every value by the constant |
| Operators.AddVectors | src/state.hpp:129-137 | adding states adds them value by value |
| Operators.OperateProduct | src/operatorproduct.cpp:48-52 | the loop applying the factors from the last added to the first computes the product's action |
| Operators.OperateSum | src/operatorsum.cpp:61-86 | the loop that keeps the original aside and adds every further term's result computes the sum's action: zero for no terms, the term itself for one |
| Operators.Times | src/operatorproduct.hpp:63-69 | `a * b` copies a's factors and appends b as one factor |
| Operators.Plus | src/operatorsum.hpp:59-60 | `a + b` copies a's terms and appends b as one term |
| Operators.TimesComposes | src/operatorproduct.cpp:48-52 | a * b acts as b followed by a |
| Operators.PlusAdds | src/operatorsum.cpp:72-85 | a + b adds b's result on the original state to a's |
| Operators.FactorsConcatenate | src/operatorproduct.cpp:48-52 | products are associative: the factors of p followed by those of q act as q then p |
| Operators.EmptyCases | src/operatorsum.cpp:62-70 | the empty product leaves the state alone, the empty sum zeroes it, and a one-factor product or one-term sum is that operator |
| Operators.MaxRequired | src/operatorproduct.cpp:37-45 | the largest requirement among the components, or zero for none |
| Operators.RequiredSuffices | src/operatorsum.cpp:40-80 | a workspace of the computed required size lets every nested call through: each primitive's own check passes, and every sum of two or more terms has its two reserved states |
| Operators.RequiredIsLeast | src/operatorsum.cpp:40-59 | conversely, a workspace that lets every nested call through is at least the computed requirement: the neediest factor forces the maximum, and each sum's two reserved states force the extra two |
| Operators.TestOperators | src/test_operators.cpp:65-79 | Two * Two * I multiplies a state by 4i, Two + Two + I gives 2a + 2a + ia, and that sum needs a workspace of two |
| Configuration.SetNumStates | src/parameters.cpp:148-155 | all three counts are stored first and nothing else changes; the error is raised exactly when the needed states do not fit above the ignored lowest ones among the N computed |
| Configuration.DefineGrid | src/parameters.cpp:136-141 | the grid sizes, length and boundary are replaced and every other setting is kept |
| Configuration.GridDelta | src/parameters.hpp:88 | the grid spacing times the number of points along x is the length; a zero size gives no finite spacing |
| Configuration.DefineInitialStates | src/parameters.cpp:157-170 | a preset clears the function handle; the random preset is described as "random" and every other preset as "unknown"; nothing else changes |
| Configuration.DefineUserInitialStates | src/parameters.cpp:172-176 | a user definition selects the user-supplied preset with the given function and description and changes nothing else |
| Configuration.DefineDataStorage | src/parameters.cpp:130-134 | the file name, save choice and clobber flag are replaced and every other setting is kept |
| Configuration.DefineExternalField | src/parameters.cpp:143-146 | the potential description and field strength are replaced and every other setting is kept |
| Configuration.SetBailoutLimits | src/parameters.cpp:178-181 | the step limit and minimum time step are replaced and every other setting is kept |
| Configuration.LaterSetterWins | src/parameters.cpp:136-155 | a later grid definition or state-count setting replaces everything an earlier one stored |
| Configuration.PresetsClearFunction | src/parameters.cpp:157-176 | a preset after a user-supplied definition clears its function and leaves the same record as the preset alone |
| Configuration.Defaults | src/parameters.cpp:37-50 | the default counts (25 states, 16 needed, none ignored) pass the state-count check |
| Configuration.DefaultsApplied | src/parameters.cpp:91-119 | resetting to defaults never fails: both default test descriptions parse, the default counts are consistent, and the result is the written-out default record |
| Configuration.DefaultNoiseParses | src/parameters.cpp:43 | the default noise description "none" names the noise-free type |
| Configuration.TimestepDefaultParses | src/parameters.cpp:41 | the default time-step test text "deviation(1e-3,1e-5)" parses to the deviation test with limits 0.001 and 0.00001 |
| Configuration.FinalDefaultParses | src/parameters.cpp:42 | the default final test text "deviation(1e-3,0)" parses to the deviation test with limits 0.001 and 0 |
| Configuration.DeviationParses | src/convergence.cpp:28-50 | any "deviation(...)" text of readable numbers parses to the deviation test built from those numbers |
| Parser.CharacterClasses | src/parser.hpp:36-37 | white space is exactly " \f\n\r\t\v", and the name delimiters are those characters and '(' |
| Parser.FirstNotWhitespace | src/parser.cpp:28-41 | `find_first_not_of(whitespace, from)`: the first non-blank position from `from` on, or none when only white space follows |
| Parser.LastNotWhitespace | src/parser.cpp:31 | `find_last_not_of(whitespace)`: the last non-blank position, everything after it being blank, or none |
| Parser.FirstDelimiter | src/parser.cpp:35 | `find_first_of(name_delim, start)`: the first delimiter from `start` on, or the end standing for npos, with no delimiter before it |
| Parser.StepFacts | src/parser.cpp:53 | one turn of the number-collecting loop of `in >> val` stops exactly at the end or at a character the state does not take, and keeps any mantissa digit collected |
| Parser.ScanFromStops | src/parser.cpp:53 | the collecting loop stops at the first character its state does not take |
| Parser.Scan | src/parser.cpp:53 | the text `in >> val` collects, sign included, and that a number with a mantissa digit takes at least one character |
| Parser.Extract | src/parser.cpp:53-55 | `in >> val`: leading white space is skipped, the unread rest is a suffix of the input, eofbit is set exactly when nothing is left, the value is a finite double, and an all-blank input fails |
| Parser.ScanWellFormed | src/parser.cpp:53 | whatever the collecting loop gathers is a well-formed token |
| Parser.Ignore | src/parser.cpp:57 | `ignore(32, ',')` discards at most 32 characters and then one comma if it is next; eofbit is set exactly when the input is short enough and holds no comma, and then nothing is left |
| Parser.IgnoreStop | src/parser.cpp:57 | `ignore` stops at the limit, at the end, or in front of the first comma |
| Parser.ReadValues | src/parser.cpp:50-58 | the extraction loop over the text between the parentheses reads at least one value or fails, and an all-blank text fails |
| Parser.ParseParameterString | src/parser.cpp:26-60 | every failure of `parse_parameter_string` reports the whole input string |
| Parser.ParseBlankRejected | src/parser.cpp:28-30 | an empty or all-blank description is a parse error (the test of "") |
| Parser.ParseName | src/parser.cpp:35-36 | a parsed name contains no white space and no '(', and starts the text after its leading white space |
| Parser.ParseOpens | src/parser.cpp:41-44 | values come only from a list opened by '(' right after the name |
| Parser.NameShape | src/parser.cpp:35-36 | the name runs from the first non-blank character to the first delimiter |
| Parser.ValuesAfterName | src/parser.cpp:37-59 | every failure of the part after the name reports the whole input |
| Parser.AfterNameBlank | src/parser.cpp:41-42 | only white space after the name gives the name with no values |
| Parser.AfterNameOpens | src/parser.cpp:43-44 | values come only when the character right after the name is '(' |
| Parser.ReadList | src/parser.cpp:47-49 | an empty text between the parentheses gives no values, and every failure reports the whole input |
| Parser.Values | src/parser.cpp:56 | one number per written entry, in order, each the value its token spells |
| Parser.ScanSpelled | src/parser.cpp:53 | a number written out and followed by a comma or the end is collected back whole |
| Parser.ExtractSpelled | src/parser.cpp:53-55 | reading a written number after white space gives its value and the rest when it is a finite double, and fails when it is beyond the doubles |
| Parser.HugeValueRefused | src/parser.cpp:53-55 | "1e400" is well-formed but beyond the doubles, so its extraction fails |
| Parser.Pow10Exceeds | src/parser.cpp:53-55 | powers of ten from 10^309 on exceed the largest double |
| Parser.IgnoreJunk | src/parser.cpp:57 | `ignore(32, ',')` discards junk of at most 32 characters without a comma, and then the comma |
| Parser.ReadValuesLast | src/parser.cpp:52-58 | the loop ends with the value that reaches the end |
| Parser.ReadValuesStep | src/parser.cpp:52-58 | a value read and its trailing comma discarded, the loop continues on the rest, keeping the values in order |
| Parser.ReadItem | src/parser.cpp:53-57 | the last entry is read as its value, with its junk and anything behind left over |
| Parser.ReadJoined | src/parser.cpp:50-58 | comma-separated numbers, with white space and short junk around them, come back in order |
| Parser.ReadJoinedComma | src/parser.cpp:52-55 | a comma after the last entry makes the next read hit the end and fail |
| Parser.ParseAt | src/parser.cpp:26-42 | the result is the name between the first non-blank character and the first delimiter, with the values the rest yields, or the error it raises |
| Parser.ListAt | src/parser.cpp:43-47 | a '(' right after the name that closes with ')' at the last non-blank character gives the values read between the two |
| Parser.DescribeRoundTrip | src/parser.cpp:26-60 | "name(v1,...,vn)" with white space around is read back as the name and the numbers in order; "name()" as the empty list |
| Parser.ParseDescription | src/parser.cpp:43-58 | a name followed by a parenthesised text is read as that name and the values read from the text, or fails with the whole input |
| Parser.ParseListAt | src/parser.cpp:35-58 | a name followed by a list closing at the last non-blank character is read as the name and the list's values |
| Parser.BareName | src/parser.cpp:41-42 | a name with only white space around it has no values ("foo", "    bar", "baz   ") |
| Parser.TrailingCommaRejected | src/parser.cpp:52-55 | a comma after the last entry is an error ("foo(1.0, 2.0,)") |
| Parser.NotOpened | src/parser.cpp:43-44 | a character other than '(' right after the name, with more than white space behind, is an error |
| Parser.NotClosed | src/parser.cpp:43-44 | a last non-blank character other than ')' behind the name is an error |
| Parser.SpaceBeforeListRejected | src/parser.cpp:41-44 | white space between the name and what follows is an error ("foo bar", "    foo  (1.0)   ") |
| Parser.UnclosedRejected | src/parser.cpp:43-44 | a list not closed by ')' at the last non-blank character is an error ("foo(", "foo)(", "foo(bar", "foo(1.0, 2.0) --baz") |
| Potentials.Init | src/potentialtypes.cpp:135-456 | each kind's `init` accepts a potential exactly when its checks pass (non-negative frequencies, positive widths, amplitudes and stadium parameters) and keeps it unchanged; the first failing check names the error |
| Potentials.Build | src/potentialtypes.cpp:100-440 | whatever a list constructor accepts is a valid potential of the kind that constructor builds |
| Potentials.ParsePotentialDescription | src/potentialtypes.cpp:53-96 | an accepted description is a valid potential; text the parameter parser refuses is an invalid potential type carrying the whole text |
| Potentials.ParsedDispatch | src/potentialtypes.cpp:62-94 | a readable description is dispatched on its name: a known name goes to that kind's constructor with the parsed values, any other name is an unknown potential type carrying the whole text |
| Potentials.DefaultNameUnknown | src/potentialtypes.cpp:67-94 | the name "default" is not one the dispatch knows and is refused as an unknown potential type |
| Potentials.Aliases | src/potentialtypes.cpp:77-90 | the six alias pairs (henon, gaussianblob, quarticoscillator, poweroscillator, ringpotential, coshpotential) reach the same constructor as their primary names |
| Potentials.HenonAlias | src/potentialtypes.cpp:77-78 | "henon" and "henonheiles" both name the Henon-Heiles potential |
| Potentials.GaussianAlias | src/potentialtypes.cpp:79-80 | "gaussianblob" and "gaussian" both name the Gaussian potential |
| Potentials.QuarticAlias | src/potentialtypes.cpp:81-82 | "quarticoscillator" and "quartic" both name the quartic potential |
| Potentials.PowerAlias | src/potentialtypes.cpp:85-86 | "poweroscillator" and "power" both name the power oscillator |
| Potentials.RingAlias | src/potentialtypes.cpp:87-88 | "ringpotential" and "ring" both name the ring potential |
| Potentials.CoshAlias | src/potentialtypes.cpp:89-90 | "coshpotential" and "cosh" both name the cosh potential |
| Potentials.ParametersRoundTrip | src/potentialtypes.cpp:107-112 | a potential's parameter list and the numeric constructor are inverse to each other, for every kind |
| Potentials.DefaultsValid | src/potentialtypes.cpp:23-50 | every kind's default potential passes its own `init`, and an empty list builds exactly that default |
| Potentials.BuildOverridesDefaults | src/potentialtypes.cpp:114-133 | a list constructor refuses every count it does not accept with a parameter-count error; an accepted list replaces the leading default parameters in order and `init` then decides |
| Potentials.OverriddenParts | src/potentialtypes.cpp:341-365 | given values occupy the first positions of the parameter list and the remaining positions keep the kind's defaults |
| Potentials.BuildAccepted | src/potentialtypes.cpp:222-243 | an accepted count yields `init` applied to the potential with the overridden parameter list |
| Potentials.BuildRefused | src/potentialtypes.cpp:192-194 | a count the constructor does not take is an invalid potential type, whatever the values |
| Potentials.AsWrittenStadiumDoubles | src/potentialtypes.cpp:423-436 | the list constructor as written stores the given centre length as the half length, so three values 1, 2, 100 describe a stadium of centre length 4 while the numeric constructor halves the same 2 |
| Potentials.StadiumRoundTrip | src/potentialtypes.cpp:410-411 | the halving list constructor rebuilds every valid stadium from the parameters it describes itself with |
| Simulation.LevelOrder | src/itpsystem.cpp:451-452 | the lexicographic order on (energy, deviation, index) tuples that the sort uses is a total order |
| Simulation.InitAsWritten | src/itpsystem.cpp:34-45 | as written, the run starts unfinished with no steps, no history and no flags raised; the first time step is popped from the user's list, or is the default when the list is empty; the exhausting flag is copied from the parameters |
| Simulation.Init | src/itpsystem.cpp:80-85 | the corrected constructor differs from the one as written only in the exhausting flag, which stays raised only while a list value is left to pop |
| Simulation.Finish | src/itpsystem.cpp:469-493 | finishing raises the finished flag and changes nothing else, and a second call does nothing |
| Simulation.FinishIdempotent | src/itpsystem.cpp:470-471 | finishing twice is the same as finishing once |
| Simulation.NextTimeStep | src/itpsystem.cpp:165-174 | the next time step is the next list value, with the exhausting flag cleared when that empties the list; otherwise the current step divided by the divisor; nothing else changes |
| Simulation.RestartConvergence | src/itpsystem.cpp:189-192 | an accepted new step restarts the step counter and lowers every time-step convergence flag, changing nothing else |
| Simulation.ChangeTimeStep | src/itpsystem.cpp:164-195 | a new step below the minimum finishes the run with the error flag raised and nothing reset; otherwise the counter restarts and time-step convergence is forgotten |
| Simulation.Tuples | src/itpsystem.cpp:440-450 | each state contributes one tuple of its measured energy, deviation and own index |
| Simulation.Pad | src/itpsystem.cpp:454-457 | a history shorter than the step count is padded to that length and keeps its rows |
| Simulation.CalculateEnergies | src/itpsystem.cpp:429-467 | nothing happens before the first step; afterwards the tuples are sorted and their energies and deviations become the history row of the current step, leaving every other row as it was |
| Simulation.SortedLevels | src/itpsystem.cpp:437-452 | the sorted tuples are ascending, name each state exactly once and carry the energy and deviation measured for that state |
| Simulation.RecordedAscending | src/itpsystem.cpp:458-465 | the energies recorded for a step are in ascending order |
| Simulation.PassesIgnoresFlags | src/convergence.cpp:73-161 | only the one-step test reads the time-step flags |
| Simulation.MarkOne | src/itpsystem.cpp:259-261 | one turn of the marking loop raises at most the flag of the state at that sorted position and changes nothing else |
| Simulation.MarkTimestep | src/itpsystem.cpp:258-262 | the marking loop keeps the state set well formed and changes only the time-step flags |
| Simulation.MarkTimestepRaisesOnly | src/itpsystem.cpp:258-262 | marking never lowers a time-step flag and raises only flags of states at visited positions |
| Simulation.MarkTimestepRaisesPassing | src/itpsystem.cpp:258-262 | for a test that does not read the flags, every visited position that passes has its state's flag raised afterwards |
| Simulation.AllFlagged | src/itpsystem.cpp:264-279 | the counting loop's result holds exactly when every position in the range holds a flagged state |
| Simulation.Unflagged | src/itpsystem.cpp:267-278 | the unflagged positions of a range are listed in ascending order, all of them and nothing else |
| Simulation.MissingReported | src/itpsystem.cpp:275-276 | at most five missing positions are reported, each really unflagged; none is reported exactly when all are flagged; fewer than five means all were reported |
| Simulation.CheckTimestepConvergence | src/itpsystem.cpp:253-294 | after marking, all needed states count as time-step converged exactly when every sorted position from the ignored ones up to ignore + needed - 1 holds a flagged state; nothing else changes |
| Simulation.MarkFinal | src/itpsystem.cpp:300-304 | the final marking loop keeps the state set well formed and changes only the final flags |
| Simulation.MarkFinalRecords | src/itpsystem.cpp:300-304 | each visited position's state gets the test result as its final flag, raised or lowered; states at no visited position keep theirs |
| Simulation.CheckFinalConvergence | src/itpsystem.cpp:296-334 | after marking, all needed states count as finally converged exactly when every needed sorted position holds a state whose final flag is raised; nothing else changes |
| Simulation.Orthonormalize | src/itpsystem.cpp:220-251 | success changes nothing; a non-positive eigenvalue changes the time step when recovery is on; otherwise, and on any other failure, the run finishes with the error flag raised and nothing else changed |
| Simulation.Conclude | src/itpsystem.cpp:410-424 | the end of an iteration keeps the state set, the tuples, the history and the step count, and never clears an error |
| Simulation.ConcludeUnconverged | src/itpsystem.cpp:423-424 | before all needed states are time-step converged nothing happens unless the list is being exhausted, and then the time step changes |
| Simulation.ConcludeConverged | src/itpsystem.cpp:411-421 | once all needed states are time-step converged, the final flags decide: all raised finishes the run keeping the time step, otherwise the time step changes |
| Simulation.ConcludeFinishesConverged | src/itpsystem.cpp:410-424 | the iteration ends the run without an error only after both tests passed for every needed state; an error arises only from a step below the minimum |
| Simulation.LayoutShaped | src/itpsystem.cpp:258-319 | a well-formed run gives the convergence tests a readable history at every sorted position |
| Simulation.Step | src/itpsystem.cpp:369-426 | an abort request or the step limit ends the run with an error and counts nothing; otherwise the total step count advances by one |
| Simulation.Begin | src/itpsystem.cpp:385-386 | both step counters advance by one and nothing else changes |
| Simulation.Advance | src/itpsystem.cpp:385-400 | after orthonormalisation and measurement the run is well formed with one history row per step, the step count stays within the limit, and the time-step fields are those orthonormalisation left |
| Simulation.OrthonormalizeKeeps | src/itpsystem.cpp:220-251 | orthonormalisation, whatever its outcome, leaves the tuples, the history and the flags well formed and the step count unchanged |
| Simulation.CheckedShaped | src/itpsystem.cpp:253-294 | the time-step check keeps the shape the rest of the step relies on |
| Simulation.Recorded | src/itpsystem.cpp:429-467 | after the measurement the run invariant holds again with the new history row |
| Simulation.InitEstablishes | src/itpsystem.cpp:34-45 | both constructors establish the run invariant |
| Simulation.StepKeepsInvariant | src/itpsystem.cpp:369-426 | every iteration keeps the run invariant, so the total step count never passes the step limit |
| Simulation.StepFinishesConverged | src/itpsystem.cpp:410-420 | a running simulation ends without an error only when every needed state passed both the time-step and the final test |
| Simulation.ChangeKeepsExhausting | src/itpsystem.cpp:166-171 | with the corrected constructor, a time-step change keeps a list value available while exhausting and consumes one |
| Simulation.OrthonormalizeExhausting | src/itpsystem.cpp:232-236 | orthonormalisation changes the time-step list only through a recovering time-step change |
| Simulation.ConcludeExhausting | src/itpsystem.cpp:410-424 | the end of an iteration keeps a list value available while exhausting, and consumes one unless it finishes the run |
| Simulation.StepKeepsExhaustingHasValues | src/itpsystem.cpp:369-426 | with the corrected constructor every iteration keeps a list value available while exhausting, and an exhausting iteration that does not end the run consumes one |
| Simulation.InitHasValues | src/itpsystem.cpp:80-85 | the corrected constructor starts with a list value available whenever it exhausts |
| Simulation.ShortListKeepsExhausting | src/itpsystem.cpp:36 | as written, asking to exhaust a list of at most one value leaves the run exhausting with nothing left to pop |
| Simulation.ExhaustedListKeepsDividing | src/itpsystem.cpp:423-424 | in that state every iteration that does not find all needed states time-step converged divides the time step again and stays exhausting |
| Simulation.CheckedParseRunnable | src/commandlineparser.cpp:293-294 | every parameter set the checked command-line parse accepts can be run: the needed states fit above the ignored ones and the time-step divisor is usable |
| Simulation.WrittenParseNotRunnable | src/commandlineparser.cpp:293-294 | the parse as written accepts `-N 10 --ignore-lowest 2`, whose parameters no run can use, and the checked parse refuses it |
| Sorting.Insert | src/itpsystem.cpp:452 | inserting adds exactly the one element to the sequence's contents |
| Sorting.Sort | src/itpsystem.cpp:452 | sorting returns a permutation of its input |
| Sorting.SortSorted | src/itpsystem.cpp:452 | under a total order the sorted sequence is in order |
| Sorting.SortKeepsDistinct | src/itpsystem.cpp:452 | sorting a sequence without repetitions creates none |
| Spectrum.BisectSplits | scripts/analyze_spectrum.py:43 | on a sorted list, bisection splits it into the levels at or below x and the levels above x |
| Spectrum.BisectIsCount | scripts/analyze_spectrum.py:43 | the staircase N(x) computed by bisection equals the number of levels at or below x |
| Spectrum.Bisect | scripts/analyze_spectrum.py:43 | bisection returns a position within the list; `BisectIsCount` states which |
| Spectrum.StaircaseShape | scripts/analyze_spectrum.py:43 | the staircase never decreases, is 0 below the lowest level and counts every level from the highest one on |
| Spectrum.Spacings | scripts/analyze_spectrum.py:37 | there is one spacing fewer than levels, each the difference of consecutive levels |
| Spectrum.SpacingsTelescope | scripts/analyze_spectrum.py:37 | the spacings sum to the width of the spectrum |
| Spectrum.SortedIffSpacingsNonNegative | scripts/analyze_spectrum.py:37 | a list is sorted exactly when none of its spacings is negative |
| Spectrum.Take | scripts/analyze_spectrum.py:33 | slicing keeps at most the requested number of leading energies, as a prefix |
| Spectrum.Unfold | scripts/analyze_spectrum.py:37-41 | unfolding succeeds exactly for at least two levels that do not all coincide; the result divides every level by the mean spacing, its spacings are those of the divided levels and their mean is one |
| Spectrum.MeanSpacing | scripts/analyze_spectrum.py:39 | the mean spacing is the width of the spectrum over the number of gaps, and is zero exactly when the first and last levels coincide |
| Spectrum.UnfoldKeepsOrder | scripts/analyze_spectrum.py:40-41 | unfolding a sorted spectrum keeps it sorted |
| Spectrum.UnfoldIsScaled | scripts/analyze_spectrum.py:40-41 | unfolding divides levels and spacings by the same non-zero mean spacing |
| Spectrum.UnfoldIdempotent | scripts/analyze_spectrum.py:37-41 | unfolding an unfolded spectrum changes nothing |
| Spectrum.UnfoldOfUnitSpectrum | scripts/analyze_spectrum.py:37-41 | a spectrum whose mean spacing is already one is its own unfolding |
| Spectrum.Linspace | scripts/analyze_spectrum.py:20-21 | the evenly spaced grid has the requested number of points, starts and ends at the given bounds, and has equal steps of width over point count minus one |
| Spectrum.LinspaceSorted | scripts/analyze_spectrum.py:20-21 | an evenly spaced grid from a lower to a higher bound is ascending |
| Spectrum.MinOf | scripts/analyze_spectrum.py:20 | the minimum is an element and no element is below it |
| Spectrum.MaxOf | scripts/analyze_spectrum.py:20 | the maximum is an element and no element is above it |
| Spectrum.FitLine | scripts/analyze_spectrum.py:22 | the closed-form line's residuals sum to zero and are orthogonal to the abscissae, the two normal equations of a degree-1 fit |
| Spectrum.FitRecoversLine | scripts/analyze_spectrum.py:22 | data lying exactly on a line are fitted by that line with no residual |
| Spectrum.TwoPointFitExact | scripts/analyze_spectrum.py:22 | two points with distinct abscissae are fitted without residual |
| Spectrum.SpreadPositive | scripts/analyze_spectrum.py:22 | abscissae that are not all equal have a positive spread, so the fit is defined |
| Spectrum.FitIsLeastSquares | scripts/analyze_spectrum.py:22 | the closed-form line has a squared error no larger than any other line's |
| Spectrum.NormalEquationsOptimal | scripts/analyze_spectrum.py:22 | any line whose residuals satisfy both normal equations minimises the squared error |
| Spectrum.TrapzTerms | scripts/analyze_spectrum.py:24 | one trapezoid per strip between consecutive sample points |
| Spectrum.TrapzConstant | scripts/analyze_spectrum.py:24 | the trapezoidal rule is exact for a constant integrand |
| Spectrum.TrapzSign | scripts/analyze_spectrum.py:24 | a non-negative integrand integrates to a non-negative value over increasing abscissae and a non-positive one over decreasing abscissae |
| Spectrum.Staircase | scripts/analyze_spectrum.py:22-23 | the sampled staircase holds the bisection count at each sample point |
| Spectrum.Window | scripts/analyze_spectrum.py:21 | each window holds 50 sample points |
| Spectrum.WindowShape | scripts/analyze_spectrum.py:21 | a window of non-zero width has distinct abscissae, increasing for a positive width and decreasing for a negative one |
| Spectrum.WindowDeviation | scripts/analyze_spectrum.py:22-24 | the mean squared deviation of the staircase from its best line over a window is never negative |
| Spectrum.ResidualAreaSign | scripts/analyze_spectrum.py:23-24 | the residual area divided by the width is never negative |
| Spectrum.ExactFitHasNoArea | scripts/analyze_spectrum.py:22-24 | samples lying exactly on a line leave no residual area |
| Spectrum.Rigidity | scripts/analyze_spectrum.py:16-26 | a zero width gives 0 without examining the bounds; otherwise the result is defined exactly when the bounds are not empty, and is never negative |
| Spectrum.PicketFenceUnfolded | scripts/analyze_spectrum.py:60 | the picket-fence spectrum 0..n-1 is already unfolded, with unit spacings and unchanged levels |
| Spectrum.PicketFence | scripts/analyze_spectrum.py:60 | the picket-fence spectrum has n levels; `PicketFenceUnfolded` states what they are |
| Spectrum.PoissonLevels | scripts/analyze_spectrum.py:62-65 | the Poisson reference sorts its draws as a permutation, fails exactly when the sorted draws span no width, and is otherwise the sorted draws over their mean spacing, still sorted |
| Spectrum.RigidityCurve | scripts/analyze_spectrum.py:58 | the curve has one value per width, each non-negative and zero at zero width |
| Spectrum.Analyse | scripts/analyze_spectrum.py:32-66 | the analysis succeeds exactly when the converged energies and the Poisson draws can be unfolded; it holds the unfolded energies and the three rigidity curves over 50 widths from 0 to 20, each starting at zero |
| Splits.Middle | src/secondordersplit.cpp:36-39 | each further power adds a full potential step followed by a kinetic step, two factors per power from the second on |
| Splits.NewSecondOrderSplit | src/secondordersplit.cpp:21-49 | with a potential the split has 2e + 1 factors, shares the half-step object exactly when the prefactor is one, and allocates the squared part only from the second power on; without one it is a single kinetic exponential of e steps carrying the prefactor; every part takes the given time step |
| Splits.KeepAllocated | src/secondordersplit.cpp:51-58 | exactly the allocated parts of the given order are kept, without repetition |
| Splits.Destroy | src/secondordersplit.cpp:51-59 | the destructor releases every allocated object exactly once, the shared half-step object included |
| Splits.UpdateOrder | src/secondordersplit.cpp:61-69 | a time-step change updates every allocated object exactly once |
| Splits.SetTimeStep | src/secondordersplit.cpp:61-69 | a time-step change gives every allocated object the new step and changes nothing else |
| Splits.SetTimeStepRebuilds | src/secondordersplit.cpp:61-69 | changing the time step of a built split gives the split built with the new step |
| Splits.SplitIsStrangPower | src/secondordersplit.cpp:34-40 | with a potential, the factors are the e-th power of the symmetric half-potential, kinetic, half-potential split with neighbouring half steps merged |
| Splits.DenominatorAsWritten | src/multiproductsplit.cpp:51-57 | the denominator is computed in 32-bit `int` arithmetic and always lies in the `int` range |
| Splits.AsWrittenIsWrapped | src/multiproductsplit.cpp:53-57 | the `int` denominator is the exact product reduced modulo 2^32 into the signed range |
| Splits.DenominatorNonZero | src/multiproductsplit.cpp:54-57 | no factor t^2 - n^2 with n different from t vanishes, so the exact denominator is never zero |
| Splits.CoefficientAsWritten | src/multiproductsplit.cpp:58 | the coefficient as written is infinite exactly when the `int` denominator wrapped to zero |
| Splits.SmallOrdersExact | src/multiproductsplit.cpp:49-60 | up to half order 7 the computed coefficients are the intended exact ones |
| Splits.CoefficientsSumToOne | src/multiproductsplit.cpp:49-60 | for every half order from 1 to 8 the intended coefficients sum to one, including order 16, where the int accumulation overflows |
| Splits.OrderSixteenOverflows | src/multiproductsplit.cpp:51-58 | at half order 8 the denominator of the sixth coefficient, 2421619200, wraps to -1873348096, so the computed coefficient has the wrong sign |
| Splits.NewMultiProductSplit | src/multiproductsplit.cpp:23-34 | a null potential forces half order 1; there is one coefficient and one member per half-order step, member t being the split of power t + 1 with step tau / (t + 1) and coefficient t |
| Splits.SetMultiTimeStep | src/multiproductsplit.cpp:43-47 | member t gets the step tau / (t + 1) and nothing else changes |
| Splits.MultiSetTimeStepRebuilds | src/multiproductsplit.cpp:43-47 | changing the time step of a built expansion gives the expansion built with the new step |
| Splits.MembersUseIntendedCoefficients | src/multiproductsplit.cpp:23-34 | up to half order 7 the members carry the intended coefficients, which sum to one |
| Splits.SplitOperator | src/secondordersplit.cpp:34-44 | a split acts as a product with one operator per factor |
| Splits.MultiOperator | src/multiproductsplit.cpp:30-33 | the expansion acts as a sum with one term per member |
| Splits.MultiProductWorkspace | src/operatorsum.cpp:40-56 | a split needs the kinetic part's workspace, and the expansion needs two more states once it sums two or more members |
| Splits.SplitWorkspace | src/operatorproduct.cpp:37-45 | a split needs exactly the kinetic part's workspace |
| States.SameCellsSameData | src/state.hpp:103-107 | two states of one layout that agree at every grid point have equal data |
| States.Zeroed | src/state.hpp:109-111 | the zeroed state is a valid state of the same layout; its values are pinned by `PlusMinusInverse` |
| States.Plus | src/state.hpp:129-137 | `+=` on states of one layout gives a valid state of that layout; `PlusMinusInverse` states its values |
| States.Minus | src/state.hpp:139-147 | `-=` on states of one layout gives a valid state of that layout; `PlusMinusInverse` states its values |
| States.PointwiseMultiply | src/state.hpp:179-183 | multiplying by an array with an entry per grid point gives a valid state of the same layout; `PointwiseMultiplyCells` states its values |
| States.PointwiseDivide | src/state.hpp:185-189 | dividing by an array without zeros gives a valid state of the same layout; `DivideUndoesMultiply` states its values |
| States.PointwiseMultiplyAndAdd | src/state.hpp:212-217 | multiply-and-add with a state of the same layout gives a valid state of that layout; `MultiplyAndAddComposes` states its values |
| States.PointwiseMultiplyY | src/state.hpp:202-210 | multiplying row by row gives a valid state of the same layout; `PointwiseMultiplyYCells` states its values |
| States.MultiplyImaginaryShiftX | src/state.hpp:191-200 | the shift gives a valid state of the same layout; `ShiftXCells` states its values |
| States.PlusMinusInverse | src/state.hpp:129-147 | adding to a zeroed state gives the other state back, subtracting a state undoes adding it, and a state minus itself is the zeroed state |
| States.TestAddition | src/test_state.cpp:125-137 | the cell values of the addition test: (1+2i)+(1+0i) = 2+2i, (1+2i)+(1+2i) = 2+4i, and the differences 0+2i and 0 |
| States.DivideUndoesMultiply | src/state.hpp:179-189 | pointwise division by an array without zeros undoes pointwise multiplication by it |
| States.PointwiseMultiplyCells | src/state.hpp:179-183 | each grid point is multiplied by the array entry at its own row-major index |
| States.MultiplyAndAddComposes | src/state.hpp:212-217 | multiply-and-add is a pointwise multiplication followed by adding the other state |
| States.PointwiseMultiplyYCells | src/state.hpp:202-210 | every cell of row y is multiplied by values[y] |
| States.PointwiseMultiplyYReadsRows | src/state.hpp:202-210 | only the first sizey entries of the array are read: arrays agreeing there give the same result |
| States.ShiftXCells | src/state.hpp:191-200 | after the shift, column 0 is zero and cell (x, y) with x ≥ 1 is the old (x-1, y) times i·values(x-1, y) |
| States.ShiftXIgnoresLastColumn | src/state.hpp:191-200 | the last column of the array is never read: arrays agreeing elsewhere give the same result |
| States.ShiftXInPlace | src/state.hpp:193-200 | the descending in-place loop, each column reading its still unchanged left neighbour and column 0 cleared last, computes exactly the shifted state |
| States.ShiftColumn | src/state.hpp:195-197 | one pass of the outer loop shifts column x from column x-1 while the columns left of x keep their input values |
| States.ClearFirstColumn | src/state.hpp:198-199 | the final loop clears column 0, completing the shifted state |
| States.FullyShifted | src/state.hpp:195-199 | once every column right of 0 is shifted and column 0 cleared, the buffer holds the shifted state |
| States.TestShiftX | src/test_state.cpp:158-165 | the shift test on a 2 x 2 grid of 1+2i with array (1, NaN, 2, NaN): column 0 becomes 0 and column 1 becomes -2+i and -4+2i, whatever the unread entries are |
| States.AssignMakesEqual | src/state.hpp:103-107 | assignment between states of equal layout copies all N values, so the target then compares equal to the state it was assigned from |
| States.Assign | src/state.hpp:103-107 | assigning between states of one layout keeps the target's layout and gives a valid state |
| States.Compare | src/state.cpp:22-33 | the comparison loop, stopping at the first differing value, returns true exactly for the same object or the same layout and equal values |
| States.EqualIsValueEquality | src/state.cpp:22-37 | states compare equal exactly when their layouts and values are equal; equality is symmetric and `!=` is its negation |
| States.SumSquaresZero | src/state.cpp:46-48 | the accumulated sum of squared differences is zero exactly when the values agree |
| States.TermVanishes | src/state.cpp:46-48 | every term of a vanishing sum of squared differences vanishes |
| States.AgreeingSumZero | src/state.cpp:46-48 | agreeing values contribute nothing to the sum |
| States.MeanSquareDistance | src/state.cpp:41-51 | the square of `rms_distance`: on one non-empty layout a finite, non-negative mean |
| States.RootMeanAtMostLargest | src/state.cpp:41-65 | `rms_distance` never exceeds `max_distance`: the root of the mean squared distance is at most any bound on the moduli of the differences |
| States.SumSquaresAtMost | src/state.cpp:46-48 | a sum of n squared differences, each at most d, is at most n·d |
| States.MeanSquareDistanceZero | src/state.cpp:41-51 | the distance is infinite exactly on a layout mismatch; on one non-empty layout it is finite and zero exactly between equal states, so a state is at distance zero from itself |
| States.MaxSquareDistance | src/state.cpp:53-65 | infinite exactly on a layout mismatch; otherwise the largest squared modulus of a difference, attained at some cell or zero, and zero exactly between equal states; every non-negative root of it is the largest modulus, which is what `max_distance` returns |
| States.RootIsLargestModulus | src/state.cpp:53-65 | the non-negative root of the largest squared modulus bounds the modulus of every difference and is attained when not zero |
| States.SquareDistances | src/state.cpp:59-60 | one non-negative squared distance per cell, zero exactly where the values agree |
| States.LargestFromZero | src/state.cpp:58-63 | the running maximum started at 0 bounds every entry, is 0 or attained, and is 0 exactly when every entry is |
| States.TestDistances | src/test_state.cpp:81-83 | the distance test: states differing by 2i in two of four cells have mean squared distance 2, the square of the rms distance sqrt(2) |
| States.TestLargestModulus | src/test_state.cpp:85 | in the same test the largest modulus of a difference, `max_distance(A, B)`, is 2 |
| States.SumSquaresStep | src/state.cpp:47-48 | one more cell adds its squared difference to the sum |
| States.SetByFuncAsWritten | src/state.hpp:113-121 | `set_by_func` as written: cell (x, y) holds f(posy[x], posy[y]), on grids with at most as many columns as rows |
| States.SetByFuncAsWrittenMisplaces | src/state.hpp:113-121 | on a 1 x 3 grid of spacing 1, f(x, y) = x + iy gives -1 - i at (0, 0) as written, where the box centre (0, -1) gives -i |
| States.SetByFuncCells | src/state.hpp:113-121 | as intended, grid point (x, y) holds f at its box centre (posx[x], posy[y]) |
| States.SetByFunc | src/state.hpp:113-121 | the intended `set_by_func` gives a valid state of the given layout; `SetByFuncCells` states its values |
| States.SetByFuncSquareAgrees | src/state.hpp:113-121 | on square grids the written and the intended versions agree |
| StateArrays.AllocatePtrArray | src/statearray.cpp:69-75 | one state object per index, state i starting i grid lengths after the storage pointer |
| StateArrays.Allocate | src/statearray.cpp:21-27 | the owning constructor: a non-slice array of N states over a fresh block it owns, starting at the block's beginning |
| StateArrays.Borrow | src/statearray.cpp:29-35 | the borrowing constructor: a non-slice array of N states over the caller's pointer, which it does not own |
| StateArrays.SliceOf | src/statearray.cpp:47-55 | a slice of len states from start needs start + len ≤ N, has len states, owns nothing, aliases state start + k of the parent as its state k, and has the null pointer exactly when it is empty |
| StateArrays.Slice | src/statearray.cpp:37-45 | the slice from start needs start ≤ N, has N - start states, and aliases state start + k as its state k |
| StateArrays.At | src/statearray.hpp:39-40 | `operator[]` needs k < N and gives the state starting k grid lengths after the array's pointer |
| StateArrays.Destroy | src/statearray.cpp:57-67 | the destructor deletes the state objects and the pointer array only of a non-slice array, and frees the storage only when that array owns it |
| StateArrays.StatesDisjoint | src/statearray.cpp:69-75 | distinct (state, x, y) triples of an array live at distinct places in the storage |
| StateArrays.Entry | src/statearray.cpp:72 | entry (x, y) of state k lives k grid lengths plus its row-major index after the array's pointer |
| StateArrays.SliceOfSlice | src/statearray.cpp:37-45 | a slice of a slice is the slice from the summed start, with the same states and the same storage |
| StateArrays.SliceCountsAddUp | src/statearray.cpp:37-55 | the first start states and the slice from start together are the whole array, so slicing keeps the number of states |
| StateArrays.ReleasedOnce | src/statearray.cpp:57-67 | a slice releases nothing; of an array and its slices only the array deletes the state objects, and frees the block only when it owns it |
| StateArrays.TestStateArrays | src/test_statearray.cpp:39-82 | the unit tests: three states borrowed from storage p hold entries 4k .. 4k+3 row by row, the slices from 0 to 3 have 3 to 0 states aliasing the array's, and the one-state slice from 1 aliases state 1 |
| StateSets.CountUpdate | src/stateset.hpp:127-137 | changing one flag moves the number of raised flags by one in the direction of the change, and not at all when the flag keeps its value |
| StateSets.CountExtremes | src/stateset.cpp:38-43 | no flag raised exactly when the count is 0, every flag raised exactly when it is the number of states |
| StateSets.SetFlag | src/stateset.hpp:114-137 | setting a flag to the value it has changes nothing; otherwise only that flag changes and the counter moves by one the same way, so the counter stays the number of raised flags |
| StateSets.ClearFrom | src/itpsystem.cpp:191-192 | lowering the flags one by one from k on leaves the earlier flags, lowers the rest and keeps the counter equal to the raised flags |
| StateSets.ClearedCountsNothing | src/itpsystem.cpp:191-192 | lowering every flag leaves the counter at 0 |
| StateSets.New | src/stateset.cpp:25-43 | the constructor lowers every flag, zeroes both counters, makes the first array current and the second the other one, which exists only for the high-memory algorithm |
| StateSets.SetTimestepConverged | src/stateset.hpp:127-138 | `set_timestep_converged` updates only the time-step flags and their counter, keeping the set valid |
| StateSets.SetFinallyConverged | src/stateset.hpp:114-125 | `set_finally_converged` updates only the final flags and their counter, keeping the set valid |
| StateSets.SwitchStateArrays | src/stateset.hpp:146-149 | the current array becomes the other one, and nothing but the two buffer choices changes |
| StateSets.SwitchTwiceRestores | src/stateset.hpp:146-149 | with two arrays in use, switching swaps them and switching twice restores the original pair |
| StateSets.SwitchKeepsPair | src/stateset.hpp:146-149 | from the high-memory constructor on, a switch makes the second array current and the first the other one |
| StateSets.DefaultSwitchLosesBuffer | src/stateset.cpp:27-36 | with the default algorithm there is no second array, so a switch would leave no current array |
| Transforms.Ordinal | src/transformer.hpp:32-34 | each kind has an enumeration value below 18 that indexes the plan table and names that kind |
| Transforms.EighteenKinds | src/transformer.hpp:32-34 | there are exactly `num_transform_types` = 18 distinct kinds, every kind is one of them, and distinct kinds have distinct enumeration values |
| Transforms.ClassificationDetermines | src/transformer.hpp:32-33 | a kind is fixed by its family (Fourier, sine, cosine), its axes and its direction |
| Transforms.InverseTransformOf | src/transformer.cpp:22-63 | the inverse of a kind has the same family and axes and the opposite direction; the throwing default branch cannot be reached |
| Transforms.InverseInvolution | src/transformer.cpp:22-63 | inverting twice gives the kind back, and no kind is its own inverse |
| Transforms.InversePairsForwardWithBackward | src/transformer.cpp:22-63 | the inverse relation is symmetric and always pairs a forward kind with a backward one |
| Transforms.FftIndex | src/transformer.cpp:84-88 | as intended, the signed frequency index of table entry x lies between -size/2 and size/2 |
| Transforms.FftIndexCongruent | src/transformer.cpp:84-88 | the intended signed index is congruent to its table position modulo the size |
| Transforms.FftIndexLeastMagnitude | src/transformer.cpp:84-88 | no index congruent to the position has a smaller magnitude than the intended signed index |
| Transforms.FftIndexEvenAgrees | src/transformer.cpp:84-88 | for even sizes the index as written, (x < sx/2 ? x : x - sx), is the intended one |
| Transforms.FftIndexOddAsWritten | src/transformer.cpp:84-88 | for odd sizes the middle entry as written is shifted down by the size: a 3-point grid gets 0, -2, -1 instead of 0, 1, -1, and a 1-point grid gets -1 for its constant mode |
| Transforms.FftTable | src/transformer.cpp:84-88 | the intended FFT table: one entry per position, entry x being 2·index·π/len with the signed index |
| Transforms.FftTableAsWritten | src/transformer.cpp:83-90 | the FFT table the constructor fills in: entry x is 2·(x < size/2 ? x : x - size)·π/len |
| Transforms.FftTablesEvenAgree | src/transformer.cpp:83-90 | on even grids the written and the intended tables are the same |
| Transforms.EvenTablesAgree | src/transformer.cpp:74-90 | the even axes of a grid get the intended table from the constructor as written |
| Transforms.FftTableThreePoints | src/transformer.cpp:84 | on a 3-point grid the middle entry as written is -4π/len where the intended table has 2π/len |
| Transforms.DsctTable | src/transformer.cpp:85-89 | the sine and cosine table: entry x is (x + 1)·π/len |
| Transforms.DsctTableRises | src/transformer.cpp:85-89 | on a grid of positive length the sine and cosine frequencies start at π/len, rise in steps of π/len and are all positive |
| Transforms.New | src/transformer.cpp:66-90 | the constructor keeps the layout, computes the six normalisation factors, fills the FFT tables as written (the intended ones on even axes) and the sine and cosine tables |
| Transforms.NormalizationIsInverseSize | src/transformer.cpp:68-73 | every factor is one over the logical size of its transform (the grid for FFTs, twice the extent along each transformed axis for sines and cosines), so factor times size is 1 |
| Transforms.FactorOverLogicalSize | src/transformer.hpp:94-122 | the factor `normalization_factor(t)` picks is one over the logical size of t |
| Transforms.NormalizationShared | src/transformer.hpp:94-122 | a kind and its inverse share their factor, and sine and cosine kinds along the same axes share theirs |
| Transforms.BoundaryFactor | src/transformer.hpp:52-60 | the boundary overloads return the FFT factor of the matching axes under periodic boundaries, and the factor of the matching sine and cosine kinds otherwise |
| Transforms.DirichletFrequencies | src/transformer.hpp:47-50 | under Dirichlet boundaries `kx(x)` and `ky(y)` are (x + 1)·π/lenx and (y + 1)·π/leny, all positive |
| Transforms.FftTableNyquist | src/transformer.cpp:84-88 | every entry of the intended FFT table lies within the Nyquist frequency π/dx |
| Transforms.PeriodicFrequencies | src/transformer.hpp:47-50 | on even grids the periodic `kx` and `ky` of the constructed transformer lie within π/dx |
| Transforms.OddGridBeyondNyquist | src/transformer.cpp:84 | on an odd grid the middle column gets a periodic `kx` below -π/dx as written, where the intended table stays within ±π/dx |
| Transforms.OddMiddleIndex | src/transformer.cpp:84 | as written, the middle entry of an odd table of size n gets the index -(n + 1)/2 |
| Transforms.EqualIsSameGrid | src/transformer.hpp:81-91 | two transformers built by the constructor compare equal exactly when they were built for the same grid |
| Transforms.PlanOf | src/transformer.hpp:132-157 | `transform` runs a complex DFT plan exactly for the Fourier kinds and a real-to-real plan for the sine and cosine kinds |

## Left out

- Numerical engine: FFTW plan creation and execution, the kinetic, Laplacian and potential operators, BLAS/LAPACK orthonormalisation and the eigensolver, and `State::norm`, `dot` and `normalize`. These are floating-point numerics and foreign calls. Their effects enter the model as inputs: an `Operators.Primitive` whose action and workspace need are parameters, an orthonormalisation outcome, and measured energies and deviations.
- Potential-function bodies and `GaussianNoise::add_noise` (transcendental functions and random numbers). A potential or noise is the record of its validated parameters.
- Random numbers, timers and clocks. The uniform sample behind the Poisson reference spectrum is an input of `Spectrum.PoissonLevels`.
- OpenMP parallel loops, the signal handlers and the main loop of itp2d.cpp. The abort request is an input of each step.
- HDF5 files and the h5py reads in the scripts: the levels a script reads are its input. `StateSet::init_from_datafile` is not part of this model.
- Plotting and rendering: matplotlib in analyze_spectrum.py, and the colour maps and PIL image calls in itp_draw_art.py.
- The asymptotic rigidity targets (1/12, L/15, log L/π²). They are statistical statements, not properties of the code.
- The legacy `sscanf` parsers (potentialparser.cpp, convergenceparser.cpp, noiseparser.cpp). The `.cpp` parsers they duplicate are modelled.
- `OperatorProduct::operator*=(const OperatorProduct&)` and `OperatorSum::operator+=(const OperatorSum&)`. Their loops step from the end toward the beginning with `++`, which is undefined behaviour.
- Text formatting: description strings, `operator<<`, exception messages, help texts and verbosity-dependent output. An error is a datatype constructor carrying the offending input.
- Double rounding and overflow: reals are exact everywhere except where a Finding needs C++ `int` width. Signed zero is not modelled either: `Util.Quotient` takes every zero divisor as +0, so where the source divides by −0.0 the model gives the infinity of the opposite sign, and `Minus` of two such infinities may then give NaN where the source gives ±Inf.
- Transforms.InverseTransformOf: the `default` branch that throws `GeneralError` cannot be reached, because the match over the 18 kinds is exhaustive.
- Spectrum.Unfold: when the mean spacing is zero or there are fewer than two levels, numpy divides by zero (or takes the mean of an empty array) and the script carries on with NaN or infinite values. The model stops with `Err(NonFinite)` there instead.
- Spectrum.FitLine: `numpy.polyfit` is replaced by the closed-form least-squares line over exact reals. Its SVD-based rounding is not modelled.
- Parser.Extract: stream extraction is modelled for decimal numbers with optional sign, point and exponent. Hexadecimal floats, `inf`/`nan`, locale grouping and rounding to the nearest double are not modelled. A value beyond the largest double is refused, as the stream does. `Parser.Ignore` models `istream::ignore` as libstdc++ implemented it before GCC 11: after the limit of discarded characters is reached, a delimiter that comes next is still extracted. The C++ standard, and libstdc++ since the fix for bug 94749, stop at the limit and leave that ','.
- States.PointwiseDivide: every divisor must be non-zero. `pointwise_divide` divides by zero anyway and stores infinite or NaN values, which exact reals cannot hold.
- States.MeanSquareDistance: returns the square of `rms_distance`, because exact reals have no square root here. `RootMeanAtMostLargest` relates any root of it to the moduli; on an empty grid the mean is 0/0 (NaN), as in `State::rms_distance`.
- States.MaxSquareDistance: returns the square of `max_distance`, which it characterises through every non-negative root (`LargestModulus`).
- States.SetByFuncAsWritten: only grids with at most as many columns as rows (`sizex <= sizey`) are modelled. On a wider grid `set_by_func` reads `posy[x]` for x ≥ sizey, past the end of the `posy` array (datalayout.hpp:37, datalayout.cpp:26), which has no defined value.
- DrawArt.ParseInt: Python's `int()` is modelled for optionally signed decimal digits with surrounding white space. Underscores, non-ASCII digits and other bases are not modelled.
- DrawArt.ISqrt: the script's floating-point `sqrt` followed by `floor`/`ceil` is modelled as the exact integer square root. The two agree for the counts the script meets.
- DrawArt.Unescape: a '%' in the stem followed by flags, a width or a precision and then another '%' (such as "%5%") is refused. Python may instead format it as a padded percent sign.
- DrawArt.DrawLoop: when the loop stops on a missing state or an unformattable name, the images it has already pasted or saved for earlier states are not modelled. Only the error is.
- DepMunger.Output: the dependencies are printed in the iteration order of a Python set, which is unspecified. The model takes the printed order as an argument and proves facts about the set of printed words.
- DepMunger.Rewrite: the regular-expression engine is modelled only for the one pattern the script uses. A match whose `sub_func` returns None is replaced by the empty string, as Python 2's `re.sub` does.
- The file-existence check in depmunger.py is an input: the set of existing source files.
- The data-file consistency assertions of itp_draw_art.py (the stored state count and layout) are assumed to hold. The data file is an input.

## Findings

| source | as written | input that shows it | evidently intended | confidence | as-written member | corrected member |
|---|---|---|---|---|---|---|
| src/transformer.cpp:84-88 | the periodic frequency of index x is x while x < sizex/2, using integer division, and x − sizex after | sizex = 3: index 1 gets 1 − 3 = −2, so frequency −4π/lenx instead of 2π/lenx | the least-magnitude representative of x modulo sizex, so an odd grid keeps indices 0, 1, −1 | not executed | Transforms.OddGridBeyondNyquist | Transforms.FftTableNyquist |
| src/state.hpp:113-121 | `set_by_func` evaluates the function at (posy[x], posy[y]): the x coordinate is read from the y positions | a 1 × 3 grid with spacing 1 and f(x, y) = x + iy: cell (0, 0) gets −1 − i, but its centre is (0, −1) | evaluate at (posx[x], posy[y]) | not executed | States.SetByFuncAsWrittenMisplaces | States.SetByFuncCells |
| src/potentialtypes.cpp:423-436 | the description constructor stores its second value as the half length without halving it | "softstadium(1,2,100)": half length 2, described as centre length 4; the numeric constructor with the same numbers gets half length 1 | halve the centre length, as the numeric constructor does (lines 410-411) | not executed | Potentials.AsWrittenStadiumDoubles | Potentials.StadiumRoundTrip |
| src/commandlineparser.cpp:293-294 | the total is checked against ignored plus needed only when both -N and -n are given; with only -N, needed is set to the total; with only -n, the total is needed × 1.25 truncated; with neither, the defaults 25 and 16 are used; in none of these three cases is `--ignore-lowest` checked | `-N 10 --ignore-lowest 2`: accepted, then 10 needed states are looked for at sorted positions 2 to 11 of 10; likewise `-n 4 --ignore-lowest 2` gives N = 5 < 6, and `--ignore-lowest 10` alone gives 25 < 26 | refuse counts where ignored plus needed exceeds the total, as `set_num_states` does | not executed | Simulation.WrittenParseNotRunnable | Simulation.CheckedParseRunnable |
| src/itpsystem.cpp:36 | exhausting the time-step list is switched on whenever asked, even when the list holds at most one value, which the initial pop consumes | `--exhaust-timestep-list` with one `--timestep`: the run stays exhausting with an empty list, so every step short of convergence divides the time step again | exhaust only while values remain | not executed | Simulation.ExhaustedListKeepsDividing | Simulation.StepKeepsExhaustingHasValues |
| src/multiproductsplit.cpp:51-58 | the coefficient denominator Π(t² − n²) is accumulated in a 32-bit `int` | half order 8 (order 16): the denominator of c_6 is 2421619200, which wraps to −1873348096, so c_6 has the wrong sign | exact (or floating-point) accumulation, giving coefficients that sum to 1 | not executed | Splits.OrderSixteenOverflows | Splits.CoefficientsSumToOne |
