# comsol2aero, modelled in Dafny

comsol2aero converts a mesh written by COMSOL Multiphysics in its text format
(`.mphtxt`) into an AERO-S (structural) or AERO-F (fluid) mesh. This project
models its core and proves properties of that model:

- **Parsing** (`ComsolParser`, `ComsolPrinter`, `ErrorReport`). The grammar
  reads the mesh record: the header, the tags and types tables, the mesh
  object (points and element sets) and the trailing selections. Every
  component after the first of an expectation sequence is committed, and
  selection labels are trimmed. The parser's error handler locates the
  failure, echoes the line and draws a caret under the column. The grammar
  is modelled on the token stream its skipper leaves. A printer of that
  token stream gives the round trip: parsing a printed well-formed mesh
  returns the mesh with its labels trimmed.
- **Conversion** (`ElementMapping`, `SelectionFold`, `AeroMesh`,
  `Conversion`):
  - Volume element sets (tet, pyr, prism, hex) are reindexed through each
    shape's node permutation and become Aero elements.
  - Their attributes are the geometric indices. When selections are folded,
    they are the selection ids, last writer winning.
  - Boundary sets (tri, quad) go into the surface topologies: an ordered map
    keyed by (surface-name prefix, surface id).
  - Face selections gather the boundary elements of their surfaces.
  - Errors abort the run. The cases are an element count that does not match
    the geometric index count, a surface beyond the supplied prefixes, and an
    allowlist that leaves elements without a selection.
- **Output** (`Karma`, `AeroRows`, `AerosGenerator`, `AerofGenerator`):
  - the output library's combinators, each reduced to what it writes and
    whether it succeeds. Its lists are relaxed: an element that cannot be
    written is skipped, what it wrote before failing stays, and a list fails
    only when no element can be written. Rows are numbered by their position,
    skipped ones included;
  - the AERO-S text: NODES, TOPOLOGY, the attribute labels, ATTRIBUTES, an
    optional MATUSAGE, SURFACETOPO blocks and the selection surfaces;
  - the AERO-F text: nodes, fluid elements and one element block per surface,
    named by its prefix and id.

  Generation fails exactly when a section without a fallback cannot be
  written. For a mesh whose every row can be written, the text is laid out
  line by line, and every numbered block is shown to read back to what was
  written.
- **Command line** (`CommandLine`). This covers:
  - the element-mapping options and their validation against each shape's
    table of Aero type ids;
  - the help line each option shows;
  - the checks that turn a command line into the user options;
  - the converter those options configure.

Real numbers are a type parameter `R`. The generators take the rendering of a
real as a parameter `render`, and the parser takes the injection of an
integer literal into `R` as `ofNat`.

## Model

| member | source | states |
|---|---|---|
| ElementMapping.PermutationTables | src/converter.hpp:14-21 | Every shape's permutation reads only positions the shape has, and every source node is read by some target slot. Apart from the pyramid, the permutation is a bijection. |
| ElementMapping.FitsIff | src/converter.hpp:97-107 | The mapper's unchecked reads stay in range exactly when the element has at least the shape's node count. |
| ElementMapping.Map | src/converter.hpp:97-107 | The mapped connectivity has one entry per permutation slot. Entry k is the 1-based id of the node at the slot's source position. |
| ElementMapping.UnmapMap | src/converter.hpp:97-107 | Reindexing loses no node: inverting the permutation restores the COMSOL element, for every shape. |
| ElementMapping.MapUnmap | src/converter.hpp:97-107 | For every shape except the pyramid, every 1-based connectivity is the image of exactly one element. |
| ElementMapping.PyramidApexRepeated | src/converter.hpp:14-21 | The degenerate pyramid writes its apex into the first four of its eight target nodes. |
| ElementMapping.SupportedTables | src/converter.hpp:58-79 | The pyramid and hexahedron tables are the same. The tet table has two value-initialised (0, 0) slots after its seven listed entries, so 0 counts as a supported tet id. The tri and prism tables hold exactly {3, 4} and {24, 83, 90}. |
| AeroMesh.KeyLessStrictTotal | src/aeromesh.hpp:64-65 | The topology-id order (prefix, then id) is irreflexive, transitive, total and asymmetric, as an ordered map's key order must be. |
| AeroMesh.Insert | src/converter.cpp:244-247 | Appending an element under a key adds exactly that key to the map's keys. |
| AeroMesh.InsertSorted | src/converter.cpp:244-247 | Appending under a key keeps the buckets strictly ascending. |
| AeroMesh.InsertLookup | src/converter.cpp:244-247 | After appending e under k, k's bucket is its old contents followed by e, and every other bucket is unchanged. |
| AeroMesh.LookupAbsent | src/aeromesh.hpp:64-65 | A key not in the map has no elements. |
| SelectionFold.IndexOf | src/converter.cpp:95-107 | An allowlisted label's id is the position of its first occurrence in the allowlist. |
| SelectionFold.MapSelectionsToAttributes | src/converter.cpp:73-132 | Each element ends with the id + 1 of the last processed selection claiming its geometric index, or with the index itself when none claims it. Face selections and unlisted labels are not processed. The not-assigned count is the number of unclaimed elements. Overwrites plus claimed elements equal the total writes. |
| SelectionFold.FoldUpToSpec | src/converter.cpp:84-128 | After k selections, the element-by-element state agrees with the last-claim reference definition and with the write count. |
| SelectionFold.FoldClaimStep | src/converter.cpp:111-127 | A processed selection sets exactly the elements whose index it lists, to its id + 1. It counts one overwrite per write to an element that was already set. |
| SelectionFold.FoldSkipStep | src/converter.cpp:87-107 | A face selection, or a label missing from a non-empty allowlist, changes no attribute. |
| SelectionFold.LastClaimIsLastWriter | src/converter.cpp:113-127 | Later selections overwrite earlier ones: the last processed selection listing g decides g's attribute. |
| SelectionFold.LastClaimNone | src/converter.cpp:129 | An element is unassigned exactly when no processed selection lists its geometric index. |
| SelectionFold.AssignEntitiesSpec | src/converter.cpp:111-127 | Writing a selection's entities sets exactly the elements whose index is listed. Every write to an element already set counts as an overwrite. |
| Conversion.MakeConverter | src/converter.cpp:24-71 | Building a converter succeeds exactly when all five mapper names have a mapping. It otherwise fails with "Unkown element type: " and the first missing name, in tri, tet, pyr, prism, hex order. On success each mapper carries its option's type id, and quadrilaterals get the fixed id 1. |
| Conversion.KeyForIff | src/converter.cpp:228-247 | Geometric index g goes to key k exactly when k's id is g + 1 and k's prefix is the g-th supplied name, or empty when no names are supplied. |
| Conversion.MapElements | src/converter.cpp:186-196 | A volume set yields one Aero element per COMSOL element, with the mapper's type id and the mapped connectivity. |
| Conversion.InsertFacesShape | src/converter.cpp:214-252 | Filing a boundary set keeps the surface map sorted and free of empty buckets, with keys the prefixes allow. |
| Conversion.InsertFacesLookup | src/converter.cpp:214-252 | Filing a boundary set appends to each valid key's bucket exactly the set's faces with that key's geometric index, in file order. |
| Conversion.ConvertSetsOutcome | src/converter.cpp:156-272 | Converting the element sets succeeds exactly when no set errs. Otherwise the error is that of the first erring set. |
| Conversion.ConvertSetsContents | src/converter.cpp:156-272 | A successful run holds the reference volume elements and attributes, in set order, with the labels repeated once per set and the reference counts. |
| Conversion.ConvertSetsTopology | src/converter.cpp:214-252 | After a successful run the surface map is sorted, holds no empty bucket, and maps every valid key to the boundary faces of its geometric index, in file order. |
| Conversion.SurfaceSelections | src/converter.cpp:42-45 | The face selections are exactly the selections of dimension 2, in file order. |
| Conversion.SurfaceGroupsSpec | src/converter.cpp:280-311 | Each face selection becomes a group named by its label, holding the boundary faces of each listed surface in list order. |
| Conversion.Convert | src/converter.cpp:134-350 | The conversion succeeds exactly when no set errs and no allowlist leaves an element unassigned. The errors are the first set's error, or the coverage message listing every selection label. On success it holds the nodes, the reference elements, attributes, labels, surface map and selection groups. |
| Conversion.AttributesPerElement | src/converter.cpp:186-211 | Every volume element gets exactly one attribute, whether attributes come from selections or from geometric indices. |
| Conversion.NoFoldNoCounts | src/converter.cpp:198-211 | Without selection folding there are no overwrites and no unassigned elements, so the coverage error cannot occur. |
| Conversion.MappedFaces | src/converter.cpp:228-242 | A boundary set's faces are mapped up to and including the first face whose geometric index has no surface name, or all of them when every index has one. |
| ConversionExamples.ShortElementCountMismatch | src/converter.cpp:163-168 | A tetrahedron set with a two-node element and no geometric index is within the model and fails with the count message, before any element is read. |
| ConversionExamples.ShortFacesAfterMissingName | src/converter.cpp:228-242 | A short face after the first face without a surface name, and a short element in a later set, are never read: the conversion fails with the too-many-surfaces message. |
| ConversionExamples.FoldByPosition | src/converter.cpp:108-127 | Without an allowlist a selection's id is its file position, and the later selection wins on a shared domain. |
| ConversionExamples.FoldByAllowlist | src/converter.cpp:95-107 | With an allowlist a selection's id is its label's allowlist position. |
| ConversionExamples.AllowlistMustCover | src/converter.cpp:319-348 | An allowlist that misses a domain makes the conversion fail with the coverage message naming all selections. |
| ConversionExamples.TriangleOnNamedSurface | src/converter.cpp:228-247 | A triangle on surface 0 is filed under the first name prefix with id 1 and is gathered by the face selection listing surface 0. |
| ConversionExamples.MissingSurfaceName | src/converter.cpp:233-242 | A boundary face on a surface with no prefix left fails the conversion with the too-many-surfaces message. |
| CommandLine.KeysAreMapperOrder | src/cmdlineparse.cpp:475-480 | The mapping options fill exactly the mapper names the converter looks up, in the same order. |
| CommandLine.Ids | src/cmdlineparse.cpp:93-177 | An option's listed ids are exactly the ids its shape's table supports. |
| CommandLine.DefaultsSupported | src/cmdlineparse.cpp:264-269 | Every mapping option's default (3, 23, 17, 24, 17) is in its shape's table. |
| CommandLine.ReadSize | src/cmdlineparse.cpp:32-53 | A value is read when it is a decimal number below 2^64, and to that number. |
| CommandLine.Validate | src/cmdlineparse.cpp:32-53 | A value is accepted exactly when it reads as a size that the shape's table lists. Otherwise the error says whether it is not a number or not a listed value. |
| CommandLine.ValidateRendered | src/cmdlineparse.cpp:32-53 | A type id written in decimal is accepted exactly when it is in the table, and it is stored as itself. |
| CommandLine.HelpText | src/cmdlineparse.cpp:67-79 | The help line is the shape's name, the fixed "element mapping. Valid values: " text and the table's ids separated by ", ". |
| CommandLine.WriteValues | src/cmdlineparse.cpp:67-79 | Writing the first id and then ", " before each later one gives the comma-separated value list. |
| CommandLine.ValueListRoundTrip | src/cmdlineparse.cpp:67-79 | The comma-separated value list reads back to the ids. |
| CommandLine.HelpListsAccepted | src/cmdlineparse.cpp:32-79 | The help line lists exactly the accepted values: it reads back to the table's ids, and an id passes validation exactly when it is listed there. |
| CommandLine.StoreAccepts | src/cmdlineparse.cpp:281-283 | Storing the mapping options succeeds exactly when no option repeats an earlier key and every value validates. |
| CommandLine.StoreHolds | src/cmdlineparse.cpp:281-283 | After a successful store, each given option's key holds its validated value, and only given keys are stored. |
| CommandLine.StoreRefuses | src/cmdlineparse.cpp:281-283 | A failed store reports the error of the first refused option. |
| CommandLine.ElementMapping | src/cmdlineparse.cpp:475-480 | Every mapper name gets an entry: the given value, else the default. There are no other entries. |
| CommandLine.ParseOptions | src/cmdlineparse.cpp:281-482 | The options are accepted exactly when the mappings store, -n comes with -e, -f comes with -v, and either version or help is asked for or the input and output checks pass. Each refusal carries its message. The flags, labels and prefixes are carried over, and version takes precedence over help. The selections flag is the corrected one, set exactly when -s is given; the flag as written is `CommandLine.UseSelectionsAsWritten`, compared in `CommandLine.SelectionsFlagAsWritten` (see Findings). |
| CommandLine.ConversionStreams | src/cmdlineparse.cpp:437-473 | In a conversion run the input comes from a file exactly when standard input is not redirected. -f comes only with -v and no output file. Verbose output to the standard output needs -f. -n needs -e. |
| CommandLine.RequestsSkipStreams | src/cmdlineparse.cpp:331-435 | A version or help request returns before the input and output are checked, so its outcome does not depend on them. |
| CommandLine.MappingsSupported | src/cmdlineparse.cpp:475-480 | In a conversion run every shape's mapping is in its table: the given value when the option was given, else the default. |
| CommandLine.ParsedOptionsConfigure | src/main.cpp:76-80 | The options of a conversion run always build a converter. Its mappers carry the parsed mappings, and it folds selections exactly when -s was given. |
| CommandLine.SelectionsFlagAsWritten | src/cmdlineparse.cpp:295-298 | As written, the selections flag is set on every command line. It differs from the intended flag exactly when -s is absent. |
| ComsolParser.ParseTable | src/comsolparser.hpp:219-227 | A tags or types table has as many entries as its count token says. Entry i is the (integer, text) pair at the i-th pair of tokens after the count, and the table ends after the last pair. Without a count token it fails there, naming the rule. |
| ComsolParser.ParseElementSet | src/comsolparser.hpp:98-118 | A parsed element set has a known shape keyword, as many geometric indices as elements, and elements of equal length. |
| ComsolParser.ParseMeshObject | src/comsolparser.hpp:133-160 | A parsed mesh object has base index 0, its declared number of points, each point of the space's dimension, and well-formed element sets. |
| ComsolParser.ParseRaw | src/comsolparser.hpp:208-239 | Every mesh the grammar accepts is well formed. |
| ComsolParser.Trim | src/comsolparser.cpp:9-20 | Trimming removes exactly the leading and trailing blanks. A text of blanks only is kept as it is. |
| ComsolParser.TrimIdempotent | src/comsolparser.cpp:9-20 | Trimming twice is trimming once. |
| ComsolParser.TrimPadded | src/comsolparser.cpp:9-20 | Blanks around a text that starts and ends with a non-blank are exactly what trimming removes. |
| ComsolParser.Parse | src/comsolparser.hpp:261-301 | The parse succeeds exactly when the grammar does. Its result is the grammar's mesh with every label trimmed, and it is well formed. |
| ComsolPrinter.ParsePrint | src/comsolparser.hpp:261-301 | Parsing a printed well-formed mesh gives the mesh back, labels trimmed. |
| ComsolPrinter.TrailingTokenRejected | src/comsolparser.hpp:288 | Nothing may follow the last selection. One more integer starts a selection that fails at its next token. Any other extra token is left unconsumed. |
| ComsolPrinter.NonzeroBaseIndexRejected | src/comsolparser.hpp:136-137 | A mesh whose lowest point index is not 0 fails exactly at that number, naming the base-index rule. |
| ComsolPrinter.LastTokenSelections | src/comsolparser.hpp:180-196 | At the last token the selection list either breaks off (an integer) or ends empty. |
| ErrorReport.GetPos | src/parsingerrorhandler.hpp:108-133 | The scan returns the 1-based line of the error position and the start of its line. CR, LF and CR LF each end one line. |
| ErrorReport.GetLine | src/parsingerrorhandler.hpp:135-144 | The echoed line is the text from the line start up to the next CR, LF or the end, and it holds no break. |
| ErrorReport.Report | src/parsingerrorhandler.hpp:79-106 | Inside the text the report has three lines. The message names the line and the rule, then comes the source line, then a caret under the error column. At the end of the text there is a single end-of-file message, in the corrected form with a blank after "Expected"; the message as written is `ErrorReport.EofAsWritten`, compared in `ErrorReport.EofAsWrittenDropsBlank` (see Findings). |
| ErrorReport.EofSharesHeader | src/parsingerrorhandler.hpp:89-105 | The corrected end-of-file message repeats the located message's header, ending with a period. |
| ErrorReport.EofAsWrittenDropsBlank | src/parsingerrorhandler.hpp:101-105 | The end-of-file message as written is one character short of that form, for every message, rule and line. |
| ErrorReport.CrLfIsOneBreak | src/parsingerrorhandler.hpp:113-129 | A CR LF pair counts as one line break. |
| ErrorReport.LfCrIsTwoBreaks | src/parsingerrorhandler.hpp:113-129 | LF followed by CR counts as two line breaks. |
| Karma.Sequence | src/aerosgenerator.hpp:102-106 | A sequence of generators succeeds exactly when every part does, and then writes the parts' output in order. |
| Karma.ListPieces | src/aerosgenerator.hpp:109 | The relaxed list succeeds exactly when some element does. It then writes every element's output up to the last success, failed elements included, with the separator after each success but the last. When no element succeeds it fails, leaving what the elements wrote. |
| Karma.ListAllOk | src/aerosgenerator.hpp:109 | A list whose elements all succeed, and which has at least one, writes their outputs joined by the separator. |
| Karma.ListOfLits | src/aerosgenerator.hpp:118-120 | A list of texts writes them joined by the separator, and fails exactly when there is none. |
| Karma.ListWritesOk | src/aerosgenerator.hpp:128-133 | When some element succeeds, the list succeeds and that element's output occurs in what the list writes. |
| AeroRows.BlockOk | src/aerosgenerator.hpp:108-112 | A titled block succeeds exactly when one of its rows does. |
| AeroRows.NodesBlockOk | src/aerosgenerator.hpp:108-109 | The NODES block is written exactly when some node has a coordinate. |
| AeroRows.ElementsBlockOk | src/aerosgenerator.hpp:111-114 | The TOPOLOGY block is written exactly when some element has a node. |
| AeroRows.ElementsBlockFails | src/aerosgenerator.hpp:111-114 | An element block none of whose rows can be written fails. It leaves its title line and, for each element, the running number and the type id. |
| AeroRows.ValuesBlockOk | src/aerosgenerator.hpp:122-126 | The ATTRIBUTES and MATUSAGE blocks are written exactly when there is a value. |
| AeroRows.LabelsBlock | src/aerosgenerator.hpp:116-120 | The labels never fail: with no labels nothing is written, otherwise the labels title and the numbered "* " rows. |
| AeroRows.PiecesLines | src/aerosgenerator.hpp:128-133 | A relaxed list of line blocks separated by line feeds writes the blocks up to the last success, an empty line after each success but the last. |
| AeroRows.ReadIndexedRoundTrip | src/aerosgenerator.hpp:108-126 | Rows numbered from k read back to the rows. |
| AeroRows.ElementRowRoundTrip | src/aerosgenerator.hpp:114 | An element row (type id, then the node ids) reads back to the element. |
| AeroRows.ElementBlockRoundTrip | src/aerosgenerator.hpp:111-114 | A numbered TOPOLOGY block whose elements all have nodes reads back to its elements. |
| AeroRows.NodeRowFields | src/aerosgenerator.hpp:108-109 | A node row splits at blanks into the rendered coordinates. |
| AeroRows.SplitUnlines | src/aerosgenerator.hpp:102-106 | Cutting the text at line feeds gives back its lines. |
| AerosGenerator.Generate | src/aerosgenerator.hpp:173-194 | Generation fails with "Aero mesh generation failed." exactly when no node has a coordinate, no element has a node, or there are no attributes. |
| AerosGenerator.MeshOk | src/aerosgenerator.hpp:102-145 | Of the eight sections, only the nodes, the elements and the attributes can fail; the labels, MATUSAGE, surfaces and selections always succeed. |
| AerosGenerator.SolidLinesText | src/aerosgenerator.hpp:102-145 | For a mesh whose every node and element row can be written, the output is exactly the line layout, each line followed by a line feed. |
| AerosGenerator.SolidOpening | src/aerosgenerator.hpp:102-103 | The line layout opens with the version header, a '*' line and NODES, whatever the mesh and flags. |
| AerosGenerator.SolidNodes | src/aerosgenerator.hpp:108-109 | The NODES block reads back to the rendered node rows, numbered from 1, and is closed by '*'. |
| AerosGenerator.SolidElements | src/aerosgenerator.hpp:111-114 | The TOPOLOGY block follows the nodes, holds one numbered row per element, and is closed by '*'. |
| AerosGenerator.SolidAttributes | src/aerosgenerator.hpp:122-123 | The ATTRIBUTES block reads back to the mesh's attributes. |
| AerosGenerator.SolidMatusageInserted | src/aerosgenerator.hpp:102-106 | Asking for MATUSAGE inserts one block right after the attributes block and changes no other line. |
| AerosGenerator.SolidMatusageRepeats | src/aerosgenerator.hpp:125-126 | The MATUSAGE rows repeat the attribute rows line for line. |
| AerosGenerator.ValuesRoundTrip | src/aerosgenerator.hpp:122-126 | Numbered attribute values read back to the values. |
| AerosGenerator.SurfaceBlockIgnoresPrefix | src/aerosgenerator.hpp:135 | A SURFACETOPO block does not write the surface-name prefix. |
| AerosGenerator.SurfaceBlockRoundTrip | src/aerosgenerator.hpp:128-135 | A SURFACETOPO block names the surface id and, when every element has a node, reads back to the surface's elements. |
| AerosGenerator.SurfaceFallback | src/aerosgenerator.hpp:128-134 | The surface section always succeeds. A surface is written exactly when one of its rows can be; the section is the relaxed list of the surfaces, skipping those that cannot be written, and it is empty only when no surface can be written. |
| AerosGenerator.SurfaceSkipped | src/aerosgenerator.hpp:128-133 | A skipped surface still leaves its SURFACETOPO line and, for each element, the running number and the type id. |
| AerosGenerator.SelectionsLines | src/aerosgenerator.hpp:137-144 | For groups whose every element has a node, the selection section is the written groups separated by empty lines and closed by '*', or a single empty line when no group can be written. |
| AerosGenerator.SelectionNumbering | src/aerosgenerator.hpp:137-144 | In any successful output, a selection group with a writable row appears under its title, numbered by its position among all groups, skipped ones included. |
| AerosGenerator.SelectionSkipsEmptyGroup | src/aerosgenerator.hpp:137-144 | With an empty first group, that group's title line is left behind and the second group keeps number 2. |
| AerosGenerator.SolidText | src/aerosgenerator.hpp:173-194 | The solid text of a complete mesh, cut at line feeds, gives its lines. |
| AerofGenerator.Generate | src/aerofgenerator.hpp:155-176 | Fluid generation fails exactly when no node has a coordinate, no element has a node, there are no attributes, or no surface has a writable row, which includes an empty surface map. |
| AerofGenerator.MeshOk | src/aerofgenerator.hpp:101-128 | Of the six sections, only the nodes, the elements, the attributes and the surfaces can fail. |
| AerofGenerator.SurfacesOk | src/aerofgenerator.hpp:124-128 | The surface list succeeds exactly when some surface has a writable row. |
| AerofGenerator.SurfaceWritten | src/aerofgenerator.hpp:124-131 | In any successful output, each surface with a writable row appears under its header, whatever the other surfaces hold. |
| AerofGenerator.FluidLinesText | src/aerofgenerator.hpp:101-131 | For a complete mesh the output is exactly the line layout, each line followed by a line feed. |
| AerofGenerator.FluidIgnoresAttributes | src/aerofgenerator.hpp:101-102 | The fluid output does not depend on the labels, the attribute values or the selection groups, only on whether attributes exist. |
| AerofGenerator.FluidNeedsAttributes | src/aerofgenerator.hpp:101-122 | Without attributes fluid generation fails, although no attribute is written. |
| AerofGenerator.FluidOpening | src/aerofgenerator.hpp:101-110 | The line layout is the numbered nodes, then the numbered fluid elements, then the surface blocks. |
| AerofGenerator.SurfaceHeaderRoundTrip | src/aerofgenerator.hpp:130-131 | A surface's header line reads back to its prefix and id. |
| AerofGenerator.SurfaceHeaderInjective | src/aerofgenerator.hpp:130-131 | Distinct surfaces get distinct headers, prefix included. |
| AerofGenerator.SurfaceBlockRoundTrip | src/aerofgenerator.hpp:124-131 | A surface block names the surface's key and, when every element has a node, reads back to its elements. |
| AerofGenerator.FluidText | src/aerofgenerator.hpp:155-176 | The fluid text of a complete mesh, cut at line feeds, gives its lines. |
| Text.ParseNatToString | src/aerosgenerator.hpp:108-126 | Decimal numbers read back to their value. |

## Left out

- The character level of the parser is not modelled: the lexer, the skipper
  (white space and `#` comments) and `double_` real parsing. The grammar is
  modelled on the tokens the skipper leaves, and reals are a type parameter.
  A failure position is a token index rather than a character offset.
- The rendering of what a rule expected is a datatype (`Expected`), not the
  parser library's text for unnamed components.
- The 24-digit fixed-point rendering of reals is a `render` parameter.
- Generation failure follows the output library's relaxed lists: a node
  with no coordinate or an element with no node is a row that cannot be
  written, and a list fails only when none of its rows can be written. The
  line-by-line layout lemmas are stated for meshes whose every row can be
  written; for the others only success, failure and what appears in the
  output are stated.
- `ComsolParser.Parse`: numeric tokens are unbounded naturals. The grammar's
  `uint_` is 32-bit, so a count, index or type id of 2^32 or more fails to
  parse there but is accepted here.
- Logging and the warnings written to the standard error are not modelled.
  These are the overwrite and not-assigned warnings, the progress messages
  and the logging of the first element, which reads `elements[0]` even for
  an empty set.
- The program version string is a parameter (`version`).
- Whether standard input is redirected is the `piped` parameter. Terminal
  detection is not part of this model.
- File and stream I/O are not modelled: reading the input file, writing the
  output file and the output stream.
- The help and licence texts printed for `--help` and `--version` are left
  out. A help request is modelled by its outcome only.
- The option parser library is not modelled. A command line is the set of
  options it holds. Its exception texts are replaced by the `OptionError`
  datatype, and a repeated mapping option is the one repetition modelled.
- `CommandLine.ReadSize`: reads only plain decimal digits. It does not model
  a leading sign or white space that a lexical cast may accept.
- `Conversion.Convert`: requires every element the converter maps to have
  at least as many nodes as its shape's permutation reads. Those elements
  are every element of each volume or boundary set before the first erring
  set, and in that set the faces up to and including the first face without
  a surface name. The converter indexes their nodes without a check, so a
  short one is undefined behaviour. Sets whose counts differ, and everything
  after the first erring face, are not constrained.
- The quadrilateral mapper is built without a table check, as in the source.
  No command-line option reaches it.
- The record declared in aeromesh.hpp has no field for the selection surface
  groups that converter.cpp fills and the solid generator prints. The model
  follows the converter and the generator.
- The commented-out alternative tetrahedron mapper in converter.cpp is not
  modelled.

## Findings

| source | as written | input that shows it | evidently intended | confidence | as-written member | corrected member |
|---|---|---|---|---|---|---|
| src/parsingerrorhandler.hpp:104 | The end-of-file message writes "Expected" directly followed by the rule name, with no blank (`ErrorReport.EofAsWritten`; the corrected `ErrorReport.Eof` is what `ErrorReport.Report` writes). | Any input that ends inside a committed rule, for example a mesh file cut off after its version line. | "Expected " and the rule name, as in the message for an error inside the text. | not executed | ErrorReport.EofAsWrittenDropsBlank | ErrorReport.EofSharesHeader |
| src/cmdlineparse.cpp:295-298 | The selections option has a default value (line 228), so its count is one on every command line, and selections are always folded into attributes (`CommandLine.UseSelectionsAsWritten`; the corrected `CommandLine.UseSelections` is what `CommandLine.ParseOptions` uses). | `comsol2aero mesh.mphtxt` with no `-s`: the attributes become selection ids instead of geometric indices. | Fold selections only when `-s` is given, as the option's help text says. | not executed | CommandLine.SelectionsFlagAsWritten | CommandLine.ParsedOptionsConfigure |
