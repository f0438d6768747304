/**
 * The command line: the element-mapping options and their validation, the
 * help line each mapping option shows, and the checks that turn the stored
 * options into the user options driving a conversion.
 *
 * The option parser itself is not modelled: a command line is given as the
 * options it holds. Whether standard input is redirected is a parameter.
 */
module CommandLine {
  import opened Wrappers
  import opened Text
  import EM = ElementMapping
  import Conversion

  /** The five configurable element mappings, one option each. */
  datatype MappingKey = TriKey | TetKey | PyrKey | PrismKey | HexKey

  const Keys: seq<MappingKey> := [TriKey, TetKey, PyrKey, PrismKey, HexKey]

  function ShapeOf(k: MappingKey): EM.Shape {
    match k
    case TriKey => EM.Tri
    case TetKey => EM.Tet
    case PyrKey => EM.Pyr
    case PrismKey => EM.Prism
    case HexKey => EM.Hex
  }

  /** The option name, which is also the key in the element mapping. */
  function KeyName(k: MappingKey): string {
    match k
    case TriKey => "tri"
    case TetKey => "tet"
    case PyrKey => "pyr"
    case PrismKey => "prism"
    case HexKey => "hex"
  }

  /** The shape name the help line starts with. */
  function Name(k: MappingKey): string {
    match k
    case TriKey => "Triangular"
    case TetKey => "Tetrahedral"
    case PyrKey => "Pyramidal pentahedral (degenerate)"
    case PrismKey => "Prismatic pentahedral"
    case HexKey => "Hexahedral"
  }

  /** The Aero type id used when the option is not given. */
  function Default(k: MappingKey): nat {
    match k
    case TriKey => 3
    case TetKey => 23
    case PyrKey => 17
    case PrismKey => 24
    case HexKey => 17
  }

  /** The option keys are the mapper names the converter looks up, in the same order. */
  lemma KeysAreMapperOrder()
    ensures |Keys| == |Conversion.MapperOrder|
    ensures forall i :: 0 <= i < |Keys| ==> KeyName(Keys[i]) == Conversion.MapperOrder[i]
  {
  }

  /** The type ids listed in the shape's table, in table order. */
  function Ids(k: MappingKey): (r: seq<nat>)
    ensures |r| == |EM.Supported(ShapeOf(k))| && |r| > 0
    ensures forall id :: id in r <==> EM.IsSupported(ShapeOf(k), id)
  {
    var t := EM.Supported(ShapeOf(k));
    var r := seq(|t|, i requires 0 <= i < |t| => t[i].0);
    assert forall id :: EM.IsSupported(ShapeOf(k), id) ==> id in r by {
      forall id | EM.IsSupported(ShapeOf(k), id) ensures id in r {
        var i :| 0 <= i < |t| && t[i].0 == id;
        assert r[i] == id;
      }
    }
    r
  }

  /** Every default is one of the values its option accepts. */
  lemma DefaultsSupported(k: MappingKey)
    ensures EM.IsSupported(ShapeOf(k), Default(k))
  {
    var t := EM.Supported(ShapeOf(k));
    match k
    case TriKey => assert t[0].0 == 3;
    case TetKey => assert t[1].0 == 23;
    case PyrKey => assert t[0].0 == 17;
    case PrismKey => assert t[0].0 == 24;
    case HexKey => assert t[0].0 == 17;
  }

  /** Every listed type id is below one thousand. */
  lemma IdsSmall(k: MappingKey)
    ensures forall i :: 0 <= i < |Ids(k)| ==> Ids(k)[i] < 1000
  {
  }

  // ---------------------------------------------------------------------
  // Validating one value

  /** The option values are read as unsigned 64-bit sizes. */
  const SizeLimit: nat := 0x1_0000_0000_0000_0000

  /** A decimal value that fits the size type, else nothing. */
  function ReadSize(s: string): (r: Option<nat>)
    ensures r.Some? ==> r.value < SizeLimit && ParseNat(s) == r
    ensures r.None? ==> ParseNat(s).None? || ParseNat(s).value >= SizeLimit
  {
    match ParseNat(s)
    case None => None
    case Some(v) => if v < SizeLimit then Some(v) else None
  }

  /** Why the options were refused. */
  datatype OptionError =
    | NotANumber(option: string, value: string)     // the value is not a size
    | InvalidValue(option: string, value: string)   // a size missing from the option's table
    | Repeated(option: string)                      // a mapping option given twice
    | Usage(message: string)                        // a refused combination of options

  /** The validator of a mapping option: the value must read as a size listed in the shape's table. */
  function Validate(k: MappingKey, value: string): (r: Result<nat, OptionError>)
    ensures r.Success? <==> ReadSize(value).Some? && ReadSize(value).value in Ids(k)
    ensures r.Success? ==> ParseNat(value) == Some(r.value) && EM.IsSupported(ShapeOf(k), r.value)
    ensures r.Failure? && ReadSize(value).None? ==> r.error == NotANumber(KeyName(k), value)
    ensures r.Failure? && ReadSize(value).Some? ==> r.error == InvalidValue(KeyName(k), value)
  {
    match ReadSize(value)
    case None => Failure(NotANumber(KeyName(k), value))
    case Some(v) =>
      if v in Ids(k) then Success(v) else Failure(InvalidValue(KeyName(k), value))
  }

  /** A type id written in decimal is accepted exactly when the shape's table lists it. */
  lemma ValidateRendered(k: MappingKey, id: nat)
    ensures Validate(k, NatToString(id)).Success? <==> id in Ids(k)
    ensures id in Ids(k) ==> Validate(k, NatToString(id)) == Success(id)
  {
    ParseNatToString(id);
    IdsSmall(k);
  }

  // ---------------------------------------------------------------------
  // The help line of a mapping option

  function HelpPrefix(k: MappingKey): string {
    Name(k) + " element mapping. Valid values: "
  }

  /** The type ids in decimal, separated by a comma and a blank. */
  function ValueList(ids: seq<nat>): string {
    Join(NatTexts(ids), ", ")
  }

  /** Writes the help line: the shape's prefix, then the table's ids. */
  method HelpText(k: MappingKey) returns (text: string)
    ensures text == HelpPrefix(k) + ValueList(Ids(k))
  {
    text := WriteValues(HelpPrefix(k), Ids(k));
  }

  /** Appends the first id to the prefix, then each later id after ", ". */
  method WriteValues(prefix: string, ids: seq<nat>) returns (text: string)
    requires |ids| > 0
    ensures text == prefix + ValueList(ids)
  {
    text := prefix + NatToString(ids[0]);
    assert ValueList(ids[..1]) == NatToString(ids[0]) by {
      assert NatTexts(ids[..1]) == [NatToString(ids[0])];
    }
    var i := 1;
    while i != |ids|
      invariant 1 <= i <= |ids|
      invariant text == prefix + ValueList(ids[..i])
      decreases |ids| - i
    {
      ValueListSnoc(ids, i);
      text := text + ", " + NatToString(ids[i]);
      i := i + 1;
    }
    assert ids[..i] == ids;
  }

  /** Extending a non-empty prefix of the ids by one id appends ", " and that id. */
  lemma ValueListSnoc(ids: seq<nat>, i: nat)
    requires 1 <= i < |ids|
    ensures ValueList(ids[..i + 1]) == ValueList(ids[..i]) + ", " + NatToString(ids[i])
  {
    assert NatTexts(ids[..i + 1]) == NatTexts(ids[..i]) + [NatToString(ids[i])];
    JoinAppend(NatTexts(ids[..i]), NatToString(ids[i]), ", ");
  }

  /** Each part after the first gets a leading blank. */
  function Spaced(parts: seq<string>): (r: seq<string>)
    requires |parts| > 0
    ensures |r| == |parts|
  {
    [parts[0]] + seq(|parts| - 1, i requires 0 <= i < |parts| - 1 => " " + parts[i + 1])
  }

  /** Joining with ", " is joining the spaced parts with ",". */
  lemma {:induction false} JoinSpaced(parts: seq<string>)
    requires |parts| > 0
    ensures Join(parts, ", ") == Join(Spaced(parts), [','])
    decreases |parts|
  {
    if |parts| > 1 {
      JoinSpaced(parts[1..]);
      var s := Spaced(parts);
      var t := Spaced(parts[1..]);
      assert s[1..] == [" " + parts[1]] + t[1..];
      var tail := Join(parts[1..], ", ");
      assert Join(s[1..], [',']) == " " + tail by {
        if |t| == 1 {
          assert s[1..] == [" " + parts[1]];
        } else {
          assert Join(t, [',']) == t[0] + [','] + Join(t[1..], [',']);
          assert Join(s[1..], [',']) == (" " + parts[1]) + [','] + Join(t[1..], [',']);
        }
      }
    }
  }

  /** Reads a list written by ValueList: numbers split at commas, each after the first led by one blank. */
  function ReadValueList(s: string): Option<seq<nat>> {
    var pieces := Split(s, ',');
    match ParseNat(pieces[0])
    case None => None
    case Some(first) =>
      match ReadSpaced(pieces[1..])
      case None => None
      case Some(rest) => Some([first] + rest)
  }

  function ReadSpaced(pieces: seq<string>): (r: Option<seq<nat>>)
    ensures r.Some? ==> |r.value| == |pieces|
  {
    if |pieces| == 0 then Some([])
    else if |pieces[0]| == 0 || pieces[0][0] != ' ' then None
    else
      match ParseNat(pieces[0][1..])
      case None => None
      case Some(x) =>
        match ReadSpaced(pieces[1..])
        case None => None
        case Some(rest) => Some([x] + rest)
  }

  lemma {:induction false} ReadSpacedTexts(ids: seq<nat>)
    ensures ReadSpaced(seq(|ids|, i requires 0 <= i < |ids| => " " + NatToString(ids[i]))) == Some(ids)
  {
    var ps := seq(|ids|, i requires 0 <= i < |ids| => " " + NatToString(ids[i]));
    if |ids| > 0 {
      assert ps[0][1..] == NatToString(ids[0]);
      ParseNatToString(ids[0]);
      ReadSpacedTexts(ids[1..]);
      assert ps[1..] == seq(|ids[1..]|, i requires 0 <= i < |ids[1..]| => " " + NatToString(ids[1..][i]));
      assert [ids[0]] + ids[1..] == ids;
    }
  }

  /** The list of values reads back to the ids it was written from. */
  lemma ValueListRoundTrip(ids: seq<nat>)
    requires |ids| > 0
    ensures ReadValueList(ValueList(ids)) == Some(ids)
  {
    var sp := Spaced(NatTexts(ids));
    ValueListPieces(ids);
    assert sp[1..] == seq(|ids[1..]|, i requires 0 <= i < |ids[1..]| => " " + NatToString(ids[1..][i]));
    ParseNatToString(ids[0]);
    ReadSpacedTexts(ids[1..]);
    assert [ids[0]] + ids[1..] == ids;
  }

  /** Cutting a value list at its commas gives the spaced numbers. */
  lemma ValueListPieces(ids: seq<nat>)
    requires |ids| > 0
    ensures Split(ValueList(ids), ',') == Spaced(NatTexts(ids))
  {
    var parts := NatTexts(ids);
    var sp := Spaced(parts);
    JoinSpaced(parts);
    forall i | 0 <= i < |sp|
      ensures ',' !in sp[i]
    {
      var d := NatToString(ids[i]);
      assert forall j :: 0 <= j < |d| ==> IsDigit(d[j]);
      assert sp[i] == d || sp[i] == " " + d;
    }
    SplitJoin(sp, ',');
  }

  /** Reads a help line: the shape's prefix, then the value list. */
  function ReadHelp(k: MappingKey, text: string): Option<seq<nat>> {
    var p := HelpPrefix(k);
    if |text| < |p| || text[..|p|] != p then None else ReadValueList(text[|p|..])
  }

  /**
   * The help line lists exactly the accepted values: it reads back to the
   * table's ids, and a listed id written in decimal passes validation while an
   * unlisted one does not.
   */
  lemma HelpListsAccepted(k: MappingKey, id: nat)
    ensures ReadHelp(k, HelpPrefix(k) + ValueList(Ids(k))) == Some(Ids(k))
    ensures Validate(k, NatToString(id)).Success? <==> id in ReadHelp(k, HelpPrefix(k) + ValueList(Ids(k))).value
  {
    var p := HelpPrefix(k);
    var text := p + ValueList(Ids(k));
    assert text[..|p|] == p && text[|p|..] == ValueList(Ids(k));
    ValueListRoundTrip(Ids(k));
    ValidateRendered(k, id);
  }

  // ---------------------------------------------------------------------
  // Storing the mapping options

  /** One mapping option as given on the command line. */
  datatype MappingArg = MappingArg(key: MappingKey, value: string)

  /** A mapping option's validator: the stored value, or why the option is refused. */
  type Validator = (MappingKey, string) -> Result<nat, OptionError>

  /** The option at i is refused: its key was given before, or its value does not validate. */
  predicate Offends(valid: Validator, args: seq<MappingArg>, i: nat)
    requires i < |args|
  {
    (exists j :: 0 <= j < i && args[j].key == args[i].key) || valid(args[i].key, args[i].value).Failure?
  }

  /** The option at i is the first one refused. */
  predicate FirstRefused(valid: Validator, args: seq<MappingArg>, i: nat)
    requires i < |args|
  {
    Offends(valid, args, i) && forall j :: 0 <= j < i ==> !Offends(valid, args, j)
  }

  /** The error the option at i is refused with; a repeat is caught before its value is read. */
  function ErrorAt(valid: Validator, args: seq<MappingArg>, i: nat): OptionError
    requires i < |args|
  {
    if exists j :: 0 <= j < i && args[j].key == args[i].key then Repeated(KeyName(args[i].key))
    else if valid(args[i].key, args[i].value).Failure? then valid(args[i].key, args[i].value).error
    else Usage("")
  }

  /**
   * Stores the mapping options in command-line order; the first refused one
   * stops the parse with its error.
   */
  function Store(valid: Validator, args: seq<MappingArg>): (r: Result<map<MappingKey, nat>, OptionError>)
    decreases |args|
  {
    if |args| == 0 then Success(map[])
    else
      var n := |args| - 1;
      match Store(valid, args[..n])
      case Failure(e) => Failure(e)
      case Success(m) =>
        var a := args[n];
        if a.key in m then Failure(Repeated(KeyName(a.key)))
        else
          match valid(a.key, a.value)
          case Failure(e) => Failure(e)
          case Success(v) =>
            Success(m[a.key := v])
  }

  /** An option is judged by the options before it only. */
  lemma OffendsInFront(valid: Validator, args: seq<MappingArg>, n: nat)
    requires n <= |args|
    ensures forall i :: 0 <= i < n ==> (Offends(valid, args[..n], i) <==> Offends(valid, args, i)) && ErrorAt(valid, args[..n], i) == ErrorAt(valid, args, i)
  {
    forall i | 0 <= i < n ensures (Offends(valid, args[..n], i) <==> Offends(valid, args, i)) && ErrorAt(valid, args[..n], i) == ErrorAt(valid, args, i) {
      assert forall j :: 0 <= j < i ==> args[..n][j] == args[j];
    }
  }

  /** Storing succeeds exactly when no option is refused. */
  lemma {:induction false} StoreAccepts(valid: Validator, args: seq<MappingArg>)
    ensures Store(valid, args).Success? <==> forall i :: 0 <= i < |args| ==> !Offends(valid, args, i)
    decreases |args|
  {
    if |args| > 0 {
      var n := |args| - 1;
      var front := args[..n];
      var a := args[n];
      StoreAccepts(valid, front);
      OffendsInFront(valid, args, n);
      if Store(valid, front).Failure? {
        assert Store(valid, args).Failure? && exists i :: 0 <= i < |args| && Offends(valid, args, i) by {
          var i :| 0 <= i < n && Offends(valid, front, i);
          assert Offends(valid, args, i);
        }
      } else {
        StoreHolds(valid, front);
        var m := Store(valid, front).value;
        if a.key in m {
          assert Store(valid, args).Failure? && Offends(valid, args, n) by {
            var j :| 0 <= j < n && front[j].key == a.key;
            assert args[j].key == a.key;
          }
        } else {
          assert !exists j :: 0 <= j < n && args[j].key == a.key by {
            forall j | 0 <= j < n ensures args[j].key != a.key {
              assert front[j].key in m;
            }
          }
          if valid(a.key, a.value).Failure? {
            assert Store(valid, args).Failure? && Offends(valid, args, n);
          } else {
            assert Store(valid, args).Success?;
            assert forall i :: 0 <= i < n ==> !Offends(valid, args, i);
            assert !Offends(valid, args, n);
          }
        }
      }
    }
  }

  /** A successful store holds every given key with its validated value, and no other key. */
  lemma {:induction false} StoreHolds(valid: Validator, args: seq<MappingArg>)
    requires Store(valid, args).Success?
    ensures forall i :: 0 <= i < |args| ==>
              args[i].key in Store(valid, args).value && valid(args[i].key, args[i].value) == Success(Store(valid, args).value[args[i].key])
    ensures forall k :: k in Store(valid, args).value <==> exists i :: 0 <= i < |args| && args[i].key == k
    decreases |args|
  {
    if |args| > 0 {
      var n := |args| - 1;
      var front := args[..n];
      var a := args[n];
      StoreHolds(valid, front);
      var m := Store(valid, front).value;
      var v := valid(a.key, a.value).value;
      var r := m[a.key := v];
      assert Store(valid, args) == Success(r);
      forall i | 0 <= i < |args|
        ensures args[i].key in r && valid(args[i].key, args[i].value) == Success(r[args[i].key])
      {
        if i < n {
          assert front[i] == args[i];
          assert args[i].key != a.key;
        }
      }
      forall k | k in r ensures exists i :: 0 <= i < |args| && args[i].key == k {
        if k != a.key {
          var i :| 0 <= i < n && front[i].key == k;
          assert args[i].key == k;
        } else {
          assert args[n].key == k;
        }
      }
    }
  }

  /** A refused parse reports the first refused option, with its error. */
  lemma {:induction false} StoreRefuses(valid: Validator, args: seq<MappingArg>)
    ensures Store(valid, args).Failure? ==>
              exists i :: 0 <= i < |args| && FirstRefused(valid, args, i) && Store(valid, args).error == ErrorAt(valid, args, i)
    decreases |args|
  {
    if |args| > 0 && Store(valid, args).Failure? {
      var n := |args| - 1;
      var front := args[..n];
      var a := args[n];
      if Store(valid, front).Failure? {
        StoreRefuses(valid, front);
        var i :| 0 <= i < n && FirstRefused(valid, front, i) && Store(valid, front).error == ErrorAt(valid, front, i);
        assert FirstRefused(valid, args, i) && Store(valid, args).error == ErrorAt(valid, args, i) by {
          OffendsInFront(valid, args, n);
        }
      } else {
        assert forall j :: 0 <= j < n ==> !Offends(valid, args, j) by {
          StoreAccepts(valid, front);
          OffendsInFront(valid, args, n);
        }
        StoreHolds(valid, front);
        var m := Store(valid, front).value;
        if a.key in m {
          assert Offends(valid, args, n) && ErrorAt(valid, args, n) == Store(valid, args).error by {
            var j :| 0 <= j < n && front[j].key == a.key;
            assert args[j].key == a.key;
          }
        } else {
          assert Offends(valid, args, n) && ErrorAt(valid, args, n) == Store(valid, args).error by {
            forall j | 0 <= j < n ensures args[j].key != a.key {
              assert front[j].key in m;
            }
          }
        }
        assert FirstRefused(valid, args, n);
      }
    }
  }

  /** Given values override the defaults; every mapper name gets an entry. */
  function ElementMapping(stored: map<MappingKey, nat>): (r: map<string, nat>)
    ensures forall k: MappingKey :: KeyName(k) in r && r[KeyName(k)] == (if k in stored then stored[k] else Default(k))
    ensures forall name :: name in r ==> exists k: MappingKey :: KeyName(k) == name
  {
    var v := (k: MappingKey) => if k in stored then stored[k] else Default(k);
    map["tri" := v(TriKey), "tet" := v(TetKey), "pyr" := v(PyrKey), "prism" := v(PrismKey), "hex" := v(HexKey)]
  }

  // ---------------------------------------------------------------------
  // The command line and the user options

  /** The options present on a command line. Absent options are None or false. */
  datatype CommandLine = CommandLine(
    help: bool, version: bool, aerof: bool, matusage: bool, verbose: bool, force: bool,
    selections: Option<seq<string>>,    // -s with its labels, possibly none
    names: Option<seq<string>>,         // -n with its surface-name prefixes
    input: Option<string>,
    output: Option<string>,
    mappings: seq<MappingArg>)          // --tri, --tet, ... in command-line order

  datatype UserOptions = UserOptions(
    verbose: bool, force: bool, help: bool, versionRequest: bool,
    aerof: bool, matusage: bool, useSelections: bool,
    inputFileName: string, outputFileName: string,
    elementMapping: map<string, nat>,
    surfaceNamePrefixes: seq<string>,
    acceptedSelections: seq<string>)

  const NamesMessage: string := "-n [ --names ] option is allowed only aero-f mode."
  const ForceMessage: string := "-f [ --force ] option is allowed only if -v [ --verbose ] is present."
  const BothInputsMessage: string :=
    "You can either redirect from standrad input or a file or provide an input file name not combinations of those."
  const NoInputMessage: string :=
    "You must either specify the input filename, or redirect from standrad input or a file."
  const ForceWithFileMessage: string :=
    "-f [ --force ] option has no effect and is not allowed when the output target is a file."
  const VerboseNeedsForceMessage: string :=
    "When an output filename is not specified run with -f to force verbose output to stderr."

  /**
   * Whether selections replace geometric indices as attribute ids, as
   * evidently intended: exactly when -s is on the command line.
   */
  function UseSelections(cl: CommandLine): bool {
    cl.selections.Some?
  }

  /**
   * The same flag as the parser computes it: the selections option has a
   * default value, so its count is one whether or not -s was given.
   */
  function UseSelectionsAsWritten(cl: CommandLine): bool {
    cl.selections.Some? || true
  }

  /** -s with labels restricts the selections; without -s, or without labels, any is accepted. */
  function Accepted(cl: CommandLine): seq<string> {
    if cl.selections.Some? then cl.selections.value else []
  }

  function Prefixes(cl: CommandLine): seq<string> {
    if cl.names.Some? then cl.names.value else []
  }

  /** The combination checks passed by every command line that gets past storing. */
  predicate CombinationOk(cl: CommandLine) {
    !(cl.names.Some? && !cl.aerof) && !(cl.force && !cl.verbose)
  }

  /** The source and target checks, made only when neither version nor help was asked for. */
  predicate StreamsOk(cl: CommandLine, piped: bool) {
    && (cl.input.Some? <==> !piped)
    && !(cl.output.Some? && cl.force)
    && !(cl.output.None? && cl.verbose && !cl.force)
  }

  /** The error of the first refused combination, in the order the checks are made. */
  function UsageError(cl: CommandLine, piped: bool): string {
    if cl.names.Some? && !cl.aerof then NamesMessage
    else if cl.force && !cl.verbose then ForceMessage
    else if cl.input.Some? && piped then BothInputsMessage
    else if cl.input.None? && !piped then NoInputMessage
    else if cl.output.Some? && cl.force then ForceWithFileMessage
    else VerboseNeedsForceMessage
  }

  /**
   * The user options for a command line: the mapping options are stored and
   * validated first; then -n needs -e and -f needs -v; a version or help
   * request returns at once, before the input and output are checked; then
   * exactly one input source is required, -f is refused with an output file,
   * and verbose output to the standard output needs -f.
   */
  function ParseOptions(cl: CommandLine, piped: bool): (r: Result<UserOptions, OptionError>)
    ensures r.Success? <==> Store(Validate, cl.mappings).Success? && CombinationOk(cl)
                            && (cl.version || cl.help || StreamsOk(cl, piped))
    ensures r.Failure? && Store(Validate, cl.mappings).Success? ==> r.error == Usage(UsageError(cl, piped))
    ensures r.Failure? && Store(Validate, cl.mappings).Failure? ==> r.error == Store(Validate, cl.mappings).error
    ensures r.Success? ==>
              && r.value.versionRequest == cl.version
              && r.value.help == (cl.help && !cl.version)
              && r.value.verbose == cl.verbose && r.value.force == cl.force
              && r.value.aerof == cl.aerof && r.value.matusage == cl.matusage
              && r.value.useSelections == UseSelections(cl)
              && r.value.acceptedSelections == Accepted(cl)
              && r.value.surfaceNamePrefixes == Prefixes(cl)
  {
    match Store(Validate, cl.mappings)
    case Failure(e) => Failure(e)
    case Success(stored) =>
      if !CombinationOk(cl) then Failure(Usage(UsageError(cl, piped)))
      else
        var base := UserOptions(
          cl.verbose, cl.force, false, false, cl.aerof, cl.matusage, UseSelections(cl),
          "", "", map[], Prefixes(cl), Accepted(cl));
        if cl.version then Success(base.(versionRequest := true))
        else if cl.help then Success(base.(help := true))
        else if !StreamsOk(cl, piped) then Failure(Usage(UsageError(cl, piped)))
        else
          Success(base.(
            inputFileName := if cl.input.Some? then cl.input.value else "",
            outputFileName := if cl.output.Some? then cl.output.value else "",
            elementMapping := ElementMapping(stored)))
  }

  /** A conversion run: neither version nor help was asked for. */
  predicate Converts(o: UserOptions) {
    !o.help && !o.versionRequest
  }

  /**
   * The options of a conversion run: the input comes from a file exactly
   * when standard input is not redirected, -f comes only with -v and no
   * output file, and verbose messages go to the standard error only when
   * the mesh goes to a file or -f is given.
   */
  lemma ConversionStreams(cl: CommandLine, piped: bool)
    requires ParseOptions(cl, piped).Success? && Converts(ParseOptions(cl, piped).value)
    ensures cl.input.Some? <==> !piped
    ensures ParseOptions(cl, piped).value.force ==> cl.verbose && cl.output.None?
    ensures ParseOptions(cl, piped).value.verbose ==> cl.output.Some? || ParseOptions(cl, piped).value.force
    ensures cl.names.Some? ==> ParseOptions(cl, piped).value.aerof
  {
  }

  /** A version or help request succeeds whatever the input and output, once the options pass. */
  lemma RequestsSkipStreams(cl: CommandLine, piped: bool, piped': bool, input: Option<string>, output: Option<string>)
    requires cl.version || cl.help
    requires Store(Validate, cl.mappings).Success? && CombinationOk(cl)
    ensures ParseOptions(cl, piped) == ParseOptions(cl.(input := input, output := output), piped')
    ensures ParseOptions(cl, piped).Success? && !Converts(ParseOptions(cl, piped).value)
  {
  }

  /**
   * In a conversion run every shape has a mapping listed in its table: the
   * given value when the option was given, else the default.
   */
  lemma MappingsSupported(cl: CommandLine, piped: bool, k: MappingKey)
    requires ParseOptions(cl, piped).Success? && Converts(ParseOptions(cl, piped).value)
    ensures var m := ParseOptions(cl, piped).value.elementMapping;
            && KeyName(k) in m
            && EM.IsSupported(ShapeOf(k), m[KeyName(k)])
            && (forall i :: 0 <= i < |cl.mappings| && cl.mappings[i].key == k ==>
                 Some(m[KeyName(k)]) == ParseNat(cl.mappings[i].value))
            && ((forall i :: 0 <= i < |cl.mappings| ==> cl.mappings[i].key != k) ==> m[KeyName(k)] == Default(k))
  {
    var args := cl.mappings;
    var stored := Store(Validate, args).value;
    StoreHolds(Validate, args);
    if k !in stored {
      DefaultsSupported(k);
    } else {
      var i :| 0 <= i < |args| && args[i].key == k;
      assert Validate(k, args[i].value) == Success(stored[k]);
    }
    forall i | 0 <= i < |args| && args[i].key == k
      ensures Some(stored[k]) == ParseNat(args[i].value)
    {
      assert Validate(k, args[i].value) == Success(stored[k]);
    }
  }

  /** The converter the parsed options configure. */
  function ConverterFor(o: UserOptions): Result<Conversion.Converter, string> {
    Conversion.MakeConverter(o.useSelections, o.elementMapping, o.surfaceNamePrefixes, o.acceptedSelections)
  }

  /**
   * The options of a conversion run always build a converter, whose mappers
   * carry the parsed mappings and which turns selections into attributes
   * exactly when -s was given.
   */
  lemma ParsedOptionsConfigure(cl: CommandLine, piped: bool)
    requires ParseOptions(cl, piped).Success? && Converts(ParseOptions(cl, piped).value)
    ensures var o := ParseOptions(cl, piped).value;
            var c := ConverterFor(o);
            && c.Success?
            && c.value.selectionsToAttributes == cl.selections.Some?
            && c.value.tet == EM.Mapper(EM.Tet, o.elementMapping["tet"])
            && c.value.prefixes == Prefixes(cl)
            && c.value.accepted == Accepted(cl)
  {
    var o := ParseOptions(cl, piped).value;
    assert forall i :: 0 <= i < |Conversion.MapperOrder| ==> Conversion.MapperOrder[i] in o.elementMapping by {
      KeysAreMapperOrder();
      forall i | 0 <= i < |Conversion.MapperOrder| ensures Conversion.MapperOrder[i] in o.elementMapping {
        assert KeyName(Keys[i]) in o.elementMapping;
      }
    }
  }

  /**
   * As written, the flag is set on every command line, so a run without -s
   * still converts selections: the flag differs from the intended one on
   * exactly the command lines without -s.
   */
  lemma SelectionsFlagAsWritten(cl: CommandLine)
    ensures UseSelectionsAsWritten(cl)
    ensures UseSelectionsAsWritten(cl) != UseSelections(cl) <==> cl.selections.None?
  {
  }
}
