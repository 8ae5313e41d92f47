/**
  `main` of vex.c: the choice between loading and extracting by the number
  of command-line arguments, and the extract action's bounding-box checks
  and output choice. `strtod` is foreign and arrives as a parameter; the
  extraction itself (the database, `to_coord` and the writers) is outside
  this module.
 */
module VexMain {
  import opened Common

  /** Where the extract action writes. */
  datatype Output = Stdout | OutputFile(name: string, vexFormat: bool)

  /** What `main` goes on to do once its arguments pass. */
  datatype Action =
    | LoadAction(file: string)
    | ExtractAction(minLon: Double, minLat: Double, maxLon: Double, maxLat: Double, output: Output)

  /** The check of the extract action that fails first. */
  datatype BoxError = LatitudeRange | LongitudeRange | LatitudeOrder | LongitudeOrder

  // ---------------------------------------------------------------------
  // `strtok(s, ",")`
  // ---------------------------------------------------------------------

  /** The length of the run of non-comma characters at the front of `s`. */
  function RunLength(s: string): (n: nat)
    ensures n <= |s|
    ensures forall i :: 0 <= i < n ==> s[i] != ','
    ensures n == |s| || s[n] == ','
  {
    if s == [] || s[0] == ',' then 0 else 1 + RunLength(s[1..])
  }

  /** A token: non-empty and free of commas. */
  predicate IsToken(s: string)
  {
    s != [] && forall i :: 0 <= i < |s| ==> s[i] != ','
  }

  /**
    The strings successive `strtok` calls return: commas are skipped, and
    each token is a maximal run of other characters.
   */
  function Tokens(s: string): (r: seq<string>)
    ensures forall i :: 0 <= i < |r| ==> IsToken(r[i])
    decreases |s|
  {
    if s == [] then []
    else if s[0] == ',' then Tokens(s[1..])
    else
      var n := RunLength(s);
      [s[..n]] + Tokens(s[n..])
  }

  /** A token followed by a comma is returned first, and the rest is tokenised after it. */
  lemma TokensCons(a: string, rest: string)
    requires IsToken(a)
    ensures Tokens(a + "," + rest) == [a] + Tokens(rest)
  {
    var s := a + "," + rest;
    assert RunLength(s) == |a| by {
      assert s[|a|] == ',';
      assert forall i :: 0 <= i < |a| ==> s[i] == a[i];
    }
    assert s[..|a|] == a;
    assert s[|a|..] == "," + rest;
    assert ("," + rest)[1..] == rest;
  }

  /** A single token tokenises to itself. */
  lemma TokensSingle(a: string)
    requires IsToken(a)
    ensures Tokens(a) == [a]
  {
    assert RunLength(a) == |a|;
    assert a[..|a|] == a;
  }

  /** `parts` joined with commas between them. */
  function CommaJoin(parts: seq<string>): string
    requires parts != []
  {
    if |parts| == 1 then parts[0] else parts[0] + "," + CommaJoin(parts[1..])
  }

  /** Tokens joined with commas are tokenised back into the same tokens, in order. */
  lemma {:induction false} TokensOfJoin(parts: seq<string>)
    requires parts != []
    requires forall i :: 0 <= i < |parts| ==> IsToken(parts[i])
    ensures Tokens(CommaJoin(parts)) == parts
    decreases |parts|
  {
    if |parts| == 1 {
      TokensSingle(parts[0]);
    } else {
      TokensCons(parts[0], CommaJoin(parts[1..]));
      TokensOfJoin(parts[1..]);
      assert parts == [parts[0]] + parts[1..];
    }
  }

  // ---------------------------------------------------------------------
  // Bounding-box checks
  // ---------------------------------------------------------------------

  /** `x < -bound || x > bound`, false for NaN. */
  predicate OutOfRange(x: Double, bound: real)
  {
    Less(x, Finite(-bound)) || Less(Finite(bound), x)
  }

  /**
    The extract action's checks in its order: `check_lat_range` on both
    latitudes, `check_lon_range` on both longitudes, then `min >= max` for
    latitudes and for longitudes. Every comparison is false on NaN.
   */
  function BoxCheck(minLon: Double, minLat: Double, maxLon: Double, maxLat: Double): Option<BoxError>
  {
    if OutOfRange(minLat, 90.0) || OutOfRange(maxLat, 90.0) then Some(LatitudeRange)
    else if OutOfRange(minLon, 180.0) || OutOfRange(maxLon, 180.0) then Some(LongitudeRange)
    else if LessEq(maxLat, minLat) then Some(LatitudeOrder)
    else if LessEq(maxLon, minLon) then Some(LongitudeOrder)
    else None
  }

  /** A box of numbers the checks accept. */
  predicate ValidBox(minLon: Double, minLat: Double, maxLon: Double, maxLat: Double)
  {
    LessEq(Finite(-90.0), minLat) && LessEq(minLat, Finite(90.0)) &&
    LessEq(Finite(-90.0), maxLat) && LessEq(maxLat, Finite(90.0)) &&
    LessEq(Finite(-180.0), minLon) && LessEq(minLon, Finite(180.0)) &&
    LessEq(Finite(-180.0), maxLon) && LessEq(maxLon, Finite(180.0)) &&
    Less(minLat, maxLat) && Less(minLon, maxLon)
  }

  /** On numbers the checks pass exactly the valid boxes. */
  lemma BoxCheckValid(minLon: Double, minLat: Double, maxLon: Double, maxLat: Double)
    requires !minLon.NaN? && !minLat.NaN? && !maxLon.NaN? && !maxLat.NaN?
    ensures BoxCheck(minLon, minLat, maxLon, maxLat).None? <==> ValidBox(minLon, minLat, maxLon, maxLat)
  {
    LessTotal(minLat, Finite(-90.0));
    LessTotal(Finite(90.0), minLat);
    LessTotal(maxLat, Finite(-90.0));
    LessTotal(Finite(90.0), maxLat);
    LessTotal(minLon, Finite(-180.0));
    LessTotal(Finite(180.0), minLon);
    LessTotal(maxLon, Finite(-180.0));
    LessTotal(Finite(180.0), maxLon);
    LessTotal(minLat, maxLat);
    LessTotal(minLon, maxLon);
  }

  /** NaN passes every check: a box of NaNs is accepted. */
  lemma BoxCheckPassesNaN()
    ensures BoxCheck(NaN, NaN, NaN, NaN).None?
    ensures !ValidBox(NaN, NaN, NaN, NaN)
  {
    NaNComparesFalse(NaN);
  }

  // ---------------------------------------------------------------------
  // Output choice
  // ---------------------------------------------------------------------

  /** `strrchr(s, '.')`: the position of the last dot. */
  function LastDot(s: string): (r: Option<nat>)
    ensures r.Some? ==> r.value < |s| && s[r.value] == '.' && forall j :: r.value < j < |s| ==> s[j] != '.'
    ensures r.None? ==> forall j :: 0 <= j < |s| ==> s[j] != '.'
  {
    if s == [] then None
    else if s[|s| - 1] == '.' then Some(|s| - 1)
    else LastDot(s[..|s| - 1])
  }

  /** The extension test: the text from the last dot on is ".vex". */
  predicate VexFormat(name: string)
  {
    var dot := LastDot(name);
    dot.Some? && name[dot.value..] == ".vex"
  }

  /** The binary format is chosen exactly for names that end in ".vex". */
  lemma VexFormatIffSuffix(name: string)
    ensures VexFormat(name) <==> |name| >= 4 && name[|name| - 4..] == ".vex"
  {
    if |name| >= 4 && name[|name| - 4..] == ".vex" {
      assert name[|name| - 4] == '.';
      assert forall j :: |name| - 4 < j < |name| ==> name[j] == ".vex"[j - (|name| - 4)];
      assert LastDot(name) == Some(|name| - 4);
    }
  }

  /** "-" is standard output; any other name is a file, in the binary format when it ends in ".vex". */
  function OutputOf(name: string): (o: Output)
    ensures name == "-" <==> o == Stdout
    ensures o.OutputFile? ==> o.name == name && (o.vexFormat <==> |name| >= 4 && name[|name| - 4..] == ".vex")
  {
    VexFormatIffSuffix(name);
    if name == "-" then Stdout else OutputFile(name, VexFormat(name))
  }

  // ---------------------------------------------------------------------
  // `main`
  // ---------------------------------------------------------------------

  /**
    The extract action's arguments: the box as `min_lon,min_lat,max_lon,max_lat`
    read by `strtok` and `strtod`, then the output name. With fewer than four
    tokens `strtod` receives NULL.
   */
  function Extract(box: string, out: string, strtod: string -> Double): (r: Status<Action>)
    ensures |Tokens(box)| < 4 <==> r.Fault?
    ensures r.Exit? ==> r.code == EXIT_FAILURE
    ensures r.Ok? ==> var t := Tokens(box);
                      r.value == ExtractAction(strtod(t[0]), strtod(t[1]), strtod(t[2]), strtod(t[3]), OutputOf(out)) &&
                      BoxCheck(strtod(t[0]), strtod(t[1]), strtod(t[2]), strtod(t[3])).None?
    ensures |Tokens(box)| >= 4 && r.Exit? ==>
              var t := Tokens(box);
              BoxCheck(strtod(t[0]), strtod(t[1]), strtod(t[2]), strtod(t[3])).Some?
  {
    var t := Tokens(box);
    if |t| < 4 then Fault
    else
      var minLon, minLat, maxLon, maxLat := strtod(t[0]), strtod(t[1]), strtod(t[2]), strtod(t[3]);
      if BoxCheck(minLon, minLat, maxLon, maxLat).Some? then Exit(EXIT_FAILURE)
      else Ok(ExtractAction(minLon, minLat, maxLon, maxLat, OutputOf(out)))
  }

  /**
    `main`'s dispatch: three arguments (the program name, the database
    directory and the input file) load, four extract, anything else prints
    the usage text and exits with `EXIT_SUCCESS`. The database directory
    argument is not read.
   */
  function Dispatch(argv: seq<string>, strtod: string -> Double): (r: Status<Action>)
    ensures r == Exit(EXIT_SUCCESS) <==> |argv| != 3 && |argv| != 4
    ensures r.Ok? && r.value.LoadAction? <==> |argv| == 3
    ensures |argv| == 3 ==> r.value.file == argv[2]
    ensures |argv| == 4 ==> r == Extract(argv[2], argv[3], strtod)
  {
    if |argv| == 3 then Ok(LoadAction(argv[2]))
    else if |argv| == 4 then Extract(argv[2], argv[3], strtod)
    else Exit(EXIT_SUCCESS)
  }
}
