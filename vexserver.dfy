/**
  The request validator of vexserver.js: four coordinates taken from the
  query string, each under a long or a short name, an ordered chain of
  checks whose first failure answers 400, and otherwise the 200 answer and
  the argument vector the server starts `vex` with. JavaScript's `Number`
  and number-to-string conversion are foreign and arrive as parameters;
  the HTTP server, the process and the piping are outside the model.
 */
module VexServer {
  import opened Common
  import VexMain

  /** The query parameters the validator reads; `None` when absent. */
  datatype Query = Query(
    north: Option<string>, n: Option<string>,
    south: Option<string>, s: Option<string>,
    east: Option<string>, e: Option<string>,
    west: Option<string>, w: Option<string>)

  /** Which check refuses a request. */
  datatype Refusal = NotANumber | Inverted | LatitudeRange | LongitudeRange

  /** The answer: a refusal with its text, or the download and the argument vector of the `vex` process. */
  datatype Response =
    | Reject(status: int, contentType: string, body: string)
    | Spawn(status: int, contentType: string, filename: string, argv: seq<string>)

  /** `long || short`: the long name unless it is absent or empty. */
  function Alias(long: Option<string>, short: Option<string>): (r: Option<string>)
    ensures long.Some? && long.value != "" ==> r == long
    ensures long.None? || long.value == "" ==> r == short
  {
    if long.Some? && long.value != "" then long else short
  }

  /** `Number(v)`: `undefined` is NaN, a string goes through `number`. */
  function ToNumber(v: Option<string>, number: string -> Double): (x: Double)
    ensures v.None? ==> x == NaN
  {
    if v.None? then NaN else number(v.value)
  }

  /** `x < lo || x > hi` in JavaScript, false for NaN. */
  predicate Outside(x: Double, bound: real)
  {
    Less(x, Finite(-bound)) || Less(Finite(bound), x)
  }

  /** The checks in the handler's order; the first that fails decides. */
  function Check(north: Double, south: Double, east: Double, west: Double): Option<Refusal>
  {
    if north.NaN? || south.NaN? || east.NaN? || west.NaN? then Some(NotANumber)
    else if LessEq(north, south) || LessEq(east, west) then Some(Inverted)
    else if Outside(north, 90.0) || Outside(south, 90.0) then Some(LatitudeRange)
    else if Outside(west, 180.0) || Outside(east, 180.0) then Some(LongitudeRange)
    else None
  }

  /** The box the handler lets through: numbers, south below north, west below east, all in range. */
  predicate GoodBox(north: Double, south: Double, east: Double, west: Double)
  {
    !north.NaN? && !south.NaN? && !east.NaN? && !west.NaN? &&
    Less(south, north) && Less(west, east) &&
    LessEq(Finite(-90.0), north) && LessEq(north, Finite(90.0)) &&
    LessEq(Finite(-90.0), south) && LessEq(south, Finite(90.0)) &&
    LessEq(Finite(-180.0), west) && LessEq(west, Finite(180.0)) &&
    LessEq(Finite(-180.0), east) && LessEq(east, Finite(180.0))
  }

  /** A request passes every check exactly when its box is good. */
  lemma CheckPassesGoodBoxes(north: Double, south: Double, east: Double, west: Double)
    ensures Check(north, south, east, west).None? <==> GoodBox(north, south, east, west)
  {
    if !north.NaN? && !south.NaN? && !east.NaN? && !west.NaN? {
      LessTotal(north, south);
      LessTotal(east, west);
      LessTotal(north, Finite(-90.0));
      LessTotal(Finite(90.0), north);
      LessTotal(south, Finite(-90.0));
      LessTotal(Finite(90.0), south);
      LessTotal(west, Finite(-180.0));
      LessTotal(Finite(180.0), west);
      LessTotal(east, Finite(-180.0));
      LessTotal(Finite(180.0), east);
    }
  }

  /** The text of each refusal. */
  function RefusalText(r: Refusal): string
  {
    match r
      case NotANumber =>
        "Usage: ?north=<lat>&south=<lat>&east=<lon>&west=<lon>\n" +
        "   or: ?n=<lat>&s=<lat>&e=<lon>&w=<lon>\n" +
        "order is not important"
      case Inverted => "North must be north of south; east must be east of west"
      case LatitudeRange => "Latitudes must be between -90 and 90"
      case LongitudeRange => "Longitudes must be between -180 and 180"
  }

  /** `(a + b) / 2` for finite numbers; rounding is not modelled. */
  function Midpoint(a: Double, b: Double): Double
  {
    if a.Finite? && b.Finite? then Finite((a.v + b.v) / 2.0) else NaN
  }

  /** The download's file name: `osm_export_<lat>_<lon>.pbf` at the box's centre. */
  function Filename(north: Double, south: Double, east: Double, west: Double, show: Double -> string): string
  {
    "osm_export_" + show(Midpoint(north, south)) + "_" + show(Midpoint(east, west)) + ".pbf"
  }

  /** The centre a good box's file name is made of is a finite point strictly inside the box. */
  lemma FilenameAtCentre(north: Double, south: Double, east: Double, west: Double)
    requires GoodBox(north, south, east, west)
    ensures Midpoint(north, south).Finite? && Less(south, Midpoint(north, south)) && Less(Midpoint(north, south), north)
    ensures Midpoint(east, west).Finite? && Less(west, Midpoint(east, west)) && Less(Midpoint(east, west), east)
  {
  }

  /** The four coordinates of a query, each by its long name or else its short one. */
  function Coordinates(q: Query, number: string -> Double): (Double, Double, Double, Double)
  {
    (ToNumber(Alias(q.north, q.n), number), ToNumber(Alias(q.south, q.s), number),
     ToNumber(Alias(q.east, q.e), number), ToNumber(Alias(q.west, q.w), number))
  }

  /**
    The handler: refuse with 400 and the text of the first failing check,
    or answer 200 and start `cmd` with the database, the four numbers as
    south, west, north, east, and "-".
   */
  function Handle(q: Query, cmd: string, dbname: string, number: string -> Double, show: Double -> string): (r: Response)
    ensures r.Reject? ==> r.status == 400 && r.contentType == "text/plain"
    ensures r.Spawn? ==> r.status == 200 && r.contentType == "application/octet-stream"
    ensures var (north, south, east, west) := Coordinates(q, number);
            r.Spawn? <==> GoodBox(north, south, east, west)
    ensures var (north, south, east, west) := Coordinates(q, number);
            r.Reject? ==> r.body == RefusalText(Check(north, south, east, west).value)
    ensures var (north, south, east, west) := Coordinates(q, number);
            r.Spawn? ==> r.argv == [cmd, dbname, show(south), show(west), show(north), show(east), "-"]
    ensures var (north, south, east, west) := Coordinates(q, number);
            r.Spawn? ==> r.filename == Filename(north, south, east, west, show)
  {
    var (north, south, east, west) := Coordinates(q, number);
    CheckPassesGoodBoxes(north, south, east, west);
    match Check(north, south, east, west)
      case Some(refusal) => Reject(400, "text/plain", RefusalText(refusal))
      case None =>
        Spawn(200, "application/octet-stream", Filename(north, south, east, west, show),
              [cmd, dbname, show(south), show(west), show(north), show(east), "-"])
  }

  /**
    Every request the server lets through starts `vex` with seven
    arguments, which `main` answers with its usage text and `EXIT_SUCCESS`:
    the download is empty.
   */
  lemma SpawnedVexPrintsUsage(q: Query, cmd: string, dbname: string, number: string -> Double,
                              show: Double -> string, strtod: string -> Double)
    requires Handle(q, cmd, dbname, number, show).Spawn?
    ensures VexMain.Dispatch(Handle(q, cmd, dbname, number, show).argv, strtod) == Exit(EXIT_SUCCESS)
  {
  }

  /** The handler with the command line `vex` reads: the directory, `west,south,east,north`, and "-". */
  function HandleFixed(q: Query, cmd: string, dbname: string, number: string -> Double, show: Double -> string): (r: Response)
  {
    var (north, south, east, west) := Coordinates(q, number);
    match Check(north, south, east, west)
      case Some(refusal) => Reject(400, "text/plain", RefusalText(refusal))
      case None =>
        Spawn(200, "application/octet-stream", Filename(north, south, east, west, show),
              [cmd, dbname, VexMain.CommaJoin([show(west), show(south), show(east), show(north)]), "-"])
  }

  /** `strtod` reads back what `show` wrote, and what `show` writes is a single token. */
  predicate ReadsBack(x: Double, show: Double -> string, strtod: string -> Double)
  {
    VexMain.IsToken(show(x)) && strtod(show(x)) == x
  }

  /**
    With the corrected command line every request the server lets through
    reaches `vex`'s extract action with the same box, written to standard output.
   */
  lemma FixedSpawnExtracts(q: Query, cmd: string, dbname: string, number: string -> Double,
                           show: Double -> string, strtod: string -> Double)
    requires HandleFixed(q, cmd, dbname, number, show).Spawn?
    requires var (north, south, east, west) := Coordinates(q, number);
             ReadsBack(north, show, strtod) && ReadsBack(south, show, strtod) &&
             ReadsBack(east, show, strtod) && ReadsBack(west, show, strtod)
    ensures var (north, south, east, west) := Coordinates(q, number);
            VexMain.Dispatch(HandleFixed(q, cmd, dbname, number, show).argv, strtod)
            == Ok(VexMain.ExtractAction(west, south, east, north, VexMain.Stdout))
  {
    var (north, south, east, west) := Coordinates(q, number);
    var parts := [show(west), show(south), show(east), show(north)];
    VexMain.TokensOfJoin(parts);
    CheckPassesGoodBoxes(north, south, east, west);
    VexMain.BoxCheckValid(west, south, east, north);
  }

  /**
    The two programs check in different orders: for a box that is both
    inverted and out of range the server names the inversion, while `vex`
    names the latitude range.
   */
  lemma CheckOrdersDiffer()
    ensures Check(Finite(-100.0), Finite(0.0), Finite(10.0), Finite(0.0)) == Some(Inverted)
    ensures VexMain.BoxCheck(Finite(0.0), Finite(0.0), Finite(10.0), Finite(-100.0)) == Some(VexMain.LatitudeRange)
  {
  }
}
