/** The line-driven RNDF parser (DARPA RNDF format of 14 March 2007). */
module Rndf {
  import opened WayPoints
  import opened Scanning

  const INT_MIN := -0x8000_0000

  // ---------------------------------------------------------------- what a file describes

  datatype Marking = Undefined | DoubleYellow | SolidYellow | SolidWhite | BrokenWhite

  /** A way-point with its latitude and longitude as written. */
  datatype Waypoint = Waypoint(id: int, lat: string, lng: string)

  datatype Checkpoint = Checkpoint(waypoint: int, id: int)

  datatype Exit = Exit(start: ElementId, end: ElementId)

  datatype Lane = Lane(
    id: int,
    count: int,
    waypoints: seq<Waypoint>,
    width: int,
    left: Marking,
    right: Marking,
    checkpoints: seq<Checkpoint>,
    stops: seq<int>,
    exits: seq<Exit>)

  datatype Segment = Segment(id: int, count: int, name: string, lanes: seq<Lane>)

  datatype Perimeter = Perimeter(id: int, count: int, exits: seq<Exit>, points: seq<Waypoint>)

  datatype Spot = Spot(id: int, width: int, checkpoint: Checkpoint, waypoints: seq<Waypoint>)

  datatype Zone = Zone(id: int, count: int, name: string, perimeter: Perimeter, spots: seq<Spot>)

  datatype File = File(
    name: string,
    segmentCount: int,
    zoneCount: int,
    version: string,
    date: string,
    segments: seq<Segment>,
    zones: seq<Zone>)

  const NO_CHECKPOINT := Checkpoint(-1, -1)
  const NO_LANE := Lane(INT_MIN, INT_MIN, [], 0, Undefined, Undefined, [], [], [])
  const NO_SEGMENT := Segment(INT_MIN, INT_MIN, "default", [])
  const NO_PERIMETER := Perimeter(INT_MIN, INT_MIN, [], [])
  const NO_SPOT := Spot(INT_MIN, 0, NO_CHECKPOINT, [])
  const NO_ZONE := Zone(INT_MIN, INT_MIN, "default", NO_PERIMETER, [])
  const NO_FILE := File("", -1, -1, "", "", [], [])

  predicate LaneValid(l: Lane) { l.id > 0 && l.count > 0 && l.width >= 0 && l.count == |l.waypoints| }
  predicate SegmentValid(s: Segment) { s.id > 0 && s.count > 0 && s.count == |s.lanes| }
  predicate PerimeterValid(p: Perimeter) { p.id == 0 && p.count > 0 && p.count == |p.points| }
  predicate SpotValid(s: Spot) { s.id > 0 && s.width >= 0 }
  predicate ZoneValid(z: Zone) { z.id > 0 && z.count >= 0 && z.count == |z.spots| }
  predicate FileValid(f: File) {
    f.segmentCount > 0 && f.zoneCount >= 0 && f.segmentCount == |f.segments| && f.zoneCount == |f.zones|
  }

  // ---------------------------------------------------------------- key words

  datatype Mode = CommentMode | GeneralMode | SegmentMode | LaneMode | ZoneMode | PerimeterMode | SpotMode | UnknownMode

  datatype Key =
    | RndfName | NumSegments | NumZones | FormatVersion | CreationDate | EndFile
    | SegmentKey | NumLanes | SegmentName | EndSegment
    | LaneKey | NumWaypoints | LaneWidth | LeftBoundary | RightBoundary
    | CheckpointKey | StopKey | ExitKey | EndLane
    | ZoneKey | NumSpots | ZoneName | EndZone
    | PerimeterKey | NumPerimeterPoints | EndPerimeter
    | SpotKey | SpotWidth | EndSpot
    | Other

  /** The mode that a word switches to. */
  function EntryMode(token: string): Option<Mode> {
    if token == "RNDF_name" then Some(GeneralMode)
    else if token == "segment" then Some(SegmentMode)
    else if token == "lane" then Some(LaneMode)
    else if token == "zone" then Some(ZoneMode)
    else if token == "perimeter" then Some(PerimeterMode)
    else if token == "spot" then Some(SpotMode)
    else None
  }

  // Each mode knows its own words.

  function GeneralKeyOf(token: string): Key {
    if token == "RNDF_name" then RndfName
    else if token == "num_segments" then NumSegments
    else if token == "num_zones" then NumZones
    else if token == "format_version" then FormatVersion
    else if token == "creation_date" then CreationDate
    else if token == "end_file" then EndFile
    else Other
  }

  function SegmentKeyOf(token: string): Key {
    if token == "segment" then SegmentKey
    else if token == "num_lanes" then NumLanes
    else if token == "segment_name" then SegmentName
    else if token == "end_segment" then EndSegment
    else Other
  }

  function LaneKeyOf(token: string): Key {
    if token == "lane" then LaneKey
    else if token == "num_waypoints" then NumWaypoints
    else if token == "lane_width" then LaneWidth
    else if token == "left_boundary" then LeftBoundary
    else if token == "right_boundary" then RightBoundary
    else if token == "checkpoint" then CheckpointKey
    else if token == "stop" then StopKey
    else if token == "exit" then ExitKey
    else if token == "end_lane" then EndLane
    else Other
  }

  function ZoneKeyOf(token: string): Key {
    if token == "zone" then ZoneKey
    else if token == "num_spots" then NumSpots
    else if token == "zone_name" then ZoneName
    else if token == "end_zone" then EndZone
    else Other
  }

  function PerimeterKeyOf(token: string): Key {
    if token == "perimeter" then PerimeterKey
    else if token == "num_perimeterpoints" then NumPerimeterPoints
    else if token == "exit" then ExitKey
    else if token == "end_perimeter" then EndPerimeter
    else Other
  }

  function SpotKeyOf(token: string): Key {
    if token == "spot" then SpotKey
    else if token == "spot_width" then SpotWidth
    else if token == "checkpoint" then CheckpointKey
    else if token == "end_spot" then EndSpot
    else Other
  }

  /** What a word means in a mode. */
  function KeyOf(mode: Mode, token: string): Key {
    match mode
    case GeneralMode => GeneralKeyOf(token)
    case SegmentMode => SegmentKeyOf(token)
    case LaneMode => LaneKeyOf(token)
    case ZoneMode => ZoneKeyOf(token)
    case PerimeterMode => PerimeterKeyOf(token)
    case SpotMode => SpotKeyOf(token)
    case CommentMode | UnknownMode => Other
  }

  // ---------------------------------------------------------------- arguments of a line

  function StringArg(line: string): string { FirstWord(AfterWord(line)) }

  function IntArg(line: string): Option<int> {
    match ScanInt(AfterWord(line))
    case NoMatch => None
    case Match(n, _) => if n == INT_MIN then None else Some(n)
  }

  function AtLeast(bound: int, n: Option<int>): Option<int> {
    if n.Some? && n.value >= bound then n else None
  }

  function MarkingNamed(word: string): Option<Marking> {
    if word == "double_yellow" then Some(DoubleYellow)
    else if word == "solid_yellow" then Some(SolidYellow)
    else if word == "solid_white" then Some(SolidWhite)
    else if word == "broken_white" then Some(BrokenWhite)
    else None
  }

  function BoundaryArg(line: string): Option<Marking> { MarkingNamed(StringArg(line)) }

  /** The identifier prefix "x.y." and, with an empty key, "x.". */
  function Dotted(x: int, y: int): string { Print(x) + "." + Print(y) + "." }

  /** A line of the form: key, space, prefix, number. */
  function DottedArg(key: string, prefix: string, line: string): Scanned<int> {
    var a := ScanText(key, line);
    if a.NoMatch? then NoMatch
    else
      var b := ScanText(prefix, SkipSpace(a.rest));
      if b.NoMatch? then NoMatch else ScanInt(b.rest)
  }

  /** Way-point number, latitude and longitude. */
  function ScanWaypoint(s: string): (r: Option<Waypoint>)
    ensures r.Some? ==> r.value.id > 0
  {
    var id := ScanInt(s);
    if id.NoMatch? then None
    else
      var lat := ScanReal(id.rest);
      if lat.NoMatch? then None
      else
        var lng := ScanReal(lat.rest);
        if lng.NoMatch? || id.value <= 0 then None else Some(Waypoint(id.value, lat.value, lng.value))
  }

  function WaypointArg(x: int, y: int, line: string): (r: Option<Waypoint>)
    ensures r.Some? ==> r.value.id > 0
  {
    var prefix := ScanText(Dotted(x, y), line);
    if prefix.NoMatch? then None else ScanWaypoint(prefix.rest)
  }

  /** A way-point line starts with a word that holds the identifier prefix. */
  function PointArg(x: int, y: int, token: string, line: string): (r: Option<Waypoint>)
    ensures r.Some? ==> r.value.id > 0
  {
    if Contains(token, Dotted(x, y)) then WaypointArg(x, y, line) else None
  }

  function CheckpointArg(x: int, y: int, line: string): Option<Checkpoint> {
    var point := DottedArg("checkpoint", Dotted(x, y), line);
    if point.NoMatch? then None
    else
      var id := ScanInt(point.rest);
      if id.NoMatch? || point.value <= 0 || id.value <= 0 then None else Some(Checkpoint(point.value, id.value))
  }

  function StopArg(x: int, y: int, line: string): Option<int> {
    var point := DottedArg("stop", Dotted(x, y), line);
    if point.NoMatch? || point.value <= 0 then None else Some(point.value)
  }

  predicate ExitIdValid(id: ElementId) { id.pt > 0 && id.lane >= 0 && id.seg > 0 }

  // Numbers count from 1.

  predicate GoodWaypoint(w: Waypoint) { w.id > 0 }
  predicate GoodCheckpoint(c: Checkpoint) { c.waypoint > 0 && c.id > 0 }
  predicate GoodStop(n: int) { n > 0 }
  predicate GoodExit(e: Exit) { ExitIdValid(e.start) && ExitIdValid(e.end) }

  /** A number after a dot. */
  function ScanDotInt(s: string): Scanned<int> {
    var dot := ScanText(".", s);
    if dot.NoMatch? then NoMatch else ScanInt(dot.rest)
  }

  /** Three numbers with dots between them. */
  function ScanId(s: string): Scanned<ElementId> {
    var seg := ScanInt(s);
    if seg.NoMatch? then NoMatch
    else
      var lane := ScanDotInt(seg.rest);
      if lane.NoMatch? then NoMatch
      else
        var pt := ScanDotInt(lane.rest);
        if pt.NoMatch? then NoMatch else Match(ElementId(seg.value, lane.value, pt.value), pt.rest)
  }

  function ExitArg(x: int, y: int, line: string): Option<Exit> {
    var point := DottedArg("exit", Dotted(x, y), line);
    if point.NoMatch? then None
    else
      var end := ScanId(point.rest);
      if end.NoMatch? then None
      else
        var exit := Exit(ElementId(x, y, point.value), end.value);
        if ExitIdValid(exit.start) && ExitIdValid(exit.end) then Some(exit) else None
  }

  // ---------------------------------------------------------------- parser state

  datatype Parser = Parser(
    mode: Mode,
    previous: Mode,
    segment: Segment,
    lane: Lane,
    zone: Zone,
    perimeter: Perimeter,
    spot: Spot,
    file: File,
    valid: bool)

  const START := Parser(UnknownMode, UnknownMode, NO_SEGMENT, NO_LANE, NO_ZONE, NO_PERIMETER, NO_SPOT, NO_FILE, true)

  function Fail(p: Parser): Parser { p.(valid := false) }

  function To(p: Parser, mode: Mode): Parser { p.(previous := p.mode, mode := mode) }

  /** The mode change that the first word of a line brings about. */
  function Enter(p: Parser, token: string): (q: Parser)
    ensures q == p.(mode := q.mode, previous := q.previous)
  {
    if p.mode.CommentMode? then p
    else
      var mode := EntryMode(token);
      if mode.Some? then To(p, mode.value)
      else if Contains(token, "/*") then To(p, CommentMode)
      else p
  }

  // ---------------------------------------------------------------- the state machine

  /** What the formats of a line read. */
  datatype Args = Args(
    text: string,
    number: Option<int>,
    marking: Option<Marking>,
    opening: Scanned<int>,
    checkpoint: Option<Checkpoint>,
    stop: Option<int>,
    exit: Option<Exit>,
    point: Option<Waypoint>,
    closes: bool)

  predicate ArgsSound(a: Args) {
    && (a.point.Some? ==> GoodWaypoint(a.point.value)) && (a.checkpoint.Some? ==> GoodCheckpoint(a.checkpoint.value))
    && (a.stop.Some? ==> GoodStop(a.stop.value)) && (a.exit.Some? ==> GoodExit(a.exit.value))
  }

  /** The key word and the identifier prefix that a mode's formats begin with. */
  function Place(p: Parser): (string, int, int) {
    match p.mode
    case LaneMode => ("lane", p.segment.id, p.lane.id)
    case PerimeterMode => ("perimeter", p.zone.id, 0)
    case SpotMode => ("spot", p.zone.id, p.spot.id)
    case _ => ("", 0, 0)
  }

  function ArgsAt(place: (string, int, int), token: string, line: string): (a: Args)
    ensures ArgsSound(a)
  {
    var (word, x, y) := place;
    Args(StringArg(line), IntArg(line), BoundaryArg(line), DottedArg(word, Print(x) + ".", line),
         CheckpointArg(x, y, line), StopArg(x, y, line), ExitArg(x, y, line), PointArg(x, y, token, line),
         Contains(line, "*/"))
  }

  function GeneralLine(p: Parser, key: Key, a: Args): Parser {
    match key
    case RndfName => p.(file := p.file.(name := a.text))
    case NumSegments =>
      var n := AtLeast(1, a.number);
      if n.Some? then p.(file := p.file.(segmentCount := n.value)) else Fail(p)
    case NumZones =>
      var n := AtLeast(0, a.number);
      if n.Some? then p.(file := p.file.(zoneCount := n.value)) else Fail(p)
    case FormatVersion => p.(file := p.file.(version := a.text))
    case CreationDate => p.(file := p.file.(date := a.text))
    case EndFile => if FileValid(p.file) then p else Fail(p)
    case _ => Fail(p)
  }

  function SegmentLine(p: Parser, key: Key, a: Args): Parser {
    match key
    case SegmentKey =>
      var n := AtLeast(1, a.number);
      if n.Some? then p.(segment := p.segment.(id := n.value)) else Fail(p)
    case NumLanes =>
      var n := AtLeast(1, a.number);
      if n.Some? then p.(segment := p.segment.(count := n.value)) else Fail(p)
    case SegmentName => p.(segment := p.segment.(name := a.text))
    case EndSegment =>
      if SegmentValid(p.segment)
      then To(p, GeneralMode).(file := p.file.(segments := p.file.segments + [p.segment]), segment := NO_SEGMENT)
      else Fail(p)
    case _ => Fail(p)
  }

  function LaneLine(p: Parser, key: Key, a: Args): Parser {
    match key
    case LaneKey =>
      var n := a.opening;
      if n.Match? && n.value > 0 then p.(lane := p.lane.(id := n.value)) else Fail(p)
    case NumWaypoints =>
      var n := AtLeast(1, a.number);
      if n.Some? then p.(lane := p.lane.(count := n.value)) else Fail(p)
    case LaneWidth =>
      var n := AtLeast(1, a.number);
      if n.Some? then p.(lane := p.lane.(width := n.value)) else Fail(p)
    case LeftBoundary =>
      var m := a.marking;
      if m.Some? then p.(lane := p.lane.(left := m.value)) else Fail(p)
    case RightBoundary =>
      var m := a.marking;
      if m.Some? then p.(lane := p.lane.(right := m.value)) else Fail(p)
    case CheckpointKey =>
      var c := a.checkpoint;
      if c.Some? then p.(lane := p.lane.(checkpoints := p.lane.checkpoints + [c.value])) else Fail(p)
    case StopKey =>
      var n := a.stop;
      if n.Some? then p.(lane := p.lane.(stops := p.lane.stops + [n.value])) else Fail(p)
    case ExitKey =>
      var e := a.exit;
      if e.Some? then p.(lane := p.lane.(exits := p.lane.exits + [e.value])) else Fail(p)
    case EndLane =>
      if LaneValid(p.lane)
      then To(p, SegmentMode).(segment := p.segment.(lanes := p.segment.lanes + [p.lane]), lane := NO_LANE)
      else Fail(p)
    case _ => LanePoint(p, a.point)
  }

  function LanePoint(p: Parser, w: Option<Waypoint>): Parser {
    if w.Some? then p.(lane := p.lane.(waypoints := p.lane.waypoints + [w.value])) else Fail(p)
  }

  function ZoneLine(p: Parser, key: Key, a: Args): Parser {
    match key
    case ZoneKey =>
      var n := AtLeast(1, a.number);
      if n.Some? then p.(zone := p.zone.(id := n.value)) else Fail(p)
    case NumSpots =>
      var n := AtLeast(0, a.number);
      if n.Some? then p.(zone := p.zone.(count := n.value)) else Fail(p)
    case ZoneName => p.(zone := p.zone.(name := a.text))
    case EndZone =>
      if ZoneValid(p.zone)
      then To(p, GeneralMode).(file := p.file.(zones := p.file.zones + [p.zone]), zone := NO_ZONE)
      else Fail(p)
    case _ => Fail(p)
  }

  function PerimeterLine(p: Parser, key: Key, a: Args): Parser {
    match key
    case PerimeterKey =>
      var n := a.opening;
      if n.Match? && n.value == 0 then p.(perimeter := p.perimeter.(id := 0)) else Fail(p)
    case NumPerimeterPoints =>
      var n := AtLeast(1, a.number);
      if n.Some? then p.(perimeter := p.perimeter.(count := n.value)) else Fail(p)
    case ExitKey =>
      var e := a.exit;
      if e.Some? then p.(perimeter := p.perimeter.(exits := p.perimeter.exits + [e.value])) else Fail(p)
    case EndPerimeter =>
      if PerimeterValid(p.perimeter)
      then To(p, ZoneMode).(zone := p.zone.(perimeter := p.perimeter), perimeter := NO_PERIMETER)
      else Fail(p)
    case _ => PerimeterPoint(p, a.point)
  }

  function PerimeterPoint(p: Parser, w: Option<Waypoint>): Parser {
    if w.Some? then p.(perimeter := p.perimeter.(points := p.perimeter.points + [w.value])) else Fail(p)
  }

  function SpotLine(p: Parser, key: Key, a: Args): Parser {
    match key
    case SpotKey =>
      var n := a.opening;
      if n.Match? && n.value > 0 then p.(spot := p.spot.(id := n.value)) else Fail(p)
    case SpotWidth =>
      var n := AtLeast(1, a.number);
      if n.Some? then p.(spot := p.spot.(width := n.value)) else Fail(p)
    case CheckpointKey =>
      var c := a.checkpoint;
      if c.Some? then p.(spot := p.spot.(checkpoint := c.value)) else Fail(p)
    case EndSpot =>
      if SpotValid(p.spot)
      then To(p, ZoneMode).(zone := p.zone.(spots := p.zone.spots + [p.spot]), spot := NO_SPOT)
      else Fail(p)
    case _ => SpotPoint(p, a.point)
  }

  function SpotPoint(p: Parser, w: Option<Waypoint>): Parser {
    if w.Some? then p.(spot := p.spot.(waypoints := p.spot.waypoints + [w.value])) else Fail(p)
  }

  /** One line in a mode, given what its first word means there and what its formats read. */
  function Handle(p: Parser, key: Key, a: Args): Parser {
    match p.mode
    case CommentMode => if a.closes then p.(mode := p.previous) else p
    case GeneralMode => GeneralLine(p, key, a)
    case SegmentMode => SegmentLine(p, key, a)
    case LaneMode => LaneLine(p, key, a)
    case ZoneMode => ZoneLine(p, key, a)
    case PerimeterMode => PerimeterLine(p, key, a)
    case SpotMode => SpotLine(p, key, a)
    case UnknownMode => Fail(p)
  }

  /** One line. An invalid line ends the parse, so later lines change nothing. */
  function Step(p: Parser, line: string): Parser {
    if !p.valid || Blank(line) then p
    else
      var token := FirstWord(line);
      var q := Enter(p, token);
      Handle(q, KeyOf(q.mode, token), ArgsAt(Place(q), token, line))
  }

  /** Lines taken one after the other. */
  function Fold<S(!new)>(f: (S, string) -> S, s: S, lines: seq<string>): S
    decreases |lines|
  {
    if lines == [] then s else Fold(f, f(s, lines[0]), lines[1..])
  }

  function Run(p: Parser, lines: seq<string>): Parser { Fold(Step, p, lines) }

  /** The file that the lines describe, if every one of them is valid where it stands. */
  function Parsed(lines: seq<string>): Option<File> {
    var p := Run(START, lines);
    if p.valid then Some(p.file) else None
  }

  /** The reader's loop, which returns at the first invalid line. */
  method Parse(lines: seq<string>) returns (r: Option<File>)
    ensures r == Parsed(lines)
  {
    var p, i := START, 0;
    while i < |lines|
      invariant 0 <= i <= |lines| && p.valid
      invariant Run(START, lines) == Run(p, lines[i..])
    {
      RunCons(p, lines[i..]);
      p := Step(p, lines[i]);
      assert lines[i..][1..] == lines[i + 1..];
      i := i + 1;
      if !p.valid {
        Stuck(p, lines[i..]);
        return None;
      }
    }
    return Some(p.file);
  }

  lemma {:induction false} FoldFixed<S(!new)>(f: (S, string) -> S, s: S, lines: seq<string>)
    requires forall line :: line in lines ==> f(s, line) == s
    ensures Fold(f, s, lines) == s
  {
    if lines != [] { FoldFixed(f, s, lines[1..]); }
  }

  lemma {:induction false} FoldAppend<S(!new)>(f: (S, string) -> S, s: S, a: seq<string>, b: seq<string>)
    ensures Fold(f, s, a + b) == Fold(f, Fold(f, s, a), b)
    decreases |a|
  {
    if a == [] {
      assert a + b == b;
    } else {
      FoldAppend(f, f(s, a[0]), a[1..], b);
      assert (a + b)[1..] == a[1..] + b;
    }
  }

  lemma RunCons(p: Parser, lines: seq<string>)
    requires lines != []
    ensures Run(p, lines) == Run(Step(p, lines[0]), lines[1..])
  {
  }

  lemma Stuck(p: Parser, lines: seq<string>)
    requires !p.valid
    ensures Run(p, lines) == p
  {
    FoldFixed(Step, p, lines);
  }

  lemma RunAppend(p: Parser, a: seq<string>, b: seq<string>)
    ensures Run(p, a + b) == Run(Run(p, a), b)
  {
    FoldAppend(Step, p, a, b);
  }

  // ---------------------------------------------------------------- what a file satisfies

  predicate PointsSound(points: seq<Waypoint>) { forall w :: w in points ==> GoodWaypoint(w) }
  predicate CheckpointsSound(checkpoints: seq<Checkpoint>) { forall c :: c in checkpoints ==> GoodCheckpoint(c) }
  predicate StopsSound(stops: seq<int>) { forall n :: n in stops ==> GoodStop(n) }
  predicate ExitsSound(exits: seq<Exit>) { forall e :: e in exits ==> GoodExit(e) }

  predicate LaneSound(l: Lane) {
    PointsSound(l.waypoints) && CheckpointsSound(l.checkpoints) && StopsSound(l.stops) && ExitsSound(l.exits)
  }

  ghost predicate LanesSound(lanes: seq<Lane>) {
    forall l :: l in lanes ==> LaneValid(l) && LaneSound(l)
  }

  ghost predicate SegmentsSound(segments: seq<Segment>) {
    forall s :: s in segments ==> SegmentValid(s) && LanesSound(s.lanes)
  }

  ghost predicate PerimeterSound(p: Perimeter) {
    p == NO_PERIMETER || (PerimeterValid(p) && PointsSound(p.points) && ExitsSound(p.exits))
  }

  predicate SpotSound(s: Spot) {
    PointsSound(s.waypoints) && (s.checkpoint == NO_CHECKPOINT || GoodCheckpoint(s.checkpoint))
  }

  ghost predicate SpotsSound(spots: seq<Spot>) {
    forall s :: s in spots ==> SpotValid(s) && SpotSound(s)
  }

  ghost predicate ZonesSound(zones: seq<Zone>) {
    forall z :: z in zones ==> ZoneValid(z) && PerimeterSound(z.perimeter) && SpotsSound(z.spots)
  }

  /** Every completed part of a file is valid, down to its way-points. */
  ghost predicate FileSound(f: File) { SegmentsSound(f.segments) && ZonesSound(f.zones) }

  /** The parts of the parser state that may hold way-points, checkpoints, stops or exits. */
  datatype Parts = Parts(
    file: File, lanes: seq<Lane>, lane: Lane, spots: seq<Spot>, spot: Spot, perimeter: Perimeter,
    points: seq<Waypoint>, exits: seq<Exit>)

  /** Headers are left out. */
  function PartsOf(p: Parser): Parts {
    Parts(p.file, p.segment.lanes,
          NO_LANE.(waypoints := p.lane.waypoints, checkpoints := p.lane.checkpoints, stops := p.lane.stops, exits := p.lane.exits),
          p.zone.spots, NO_SPOT.(waypoints := p.spot.waypoints, checkpoint := p.spot.checkpoint),
          p.zone.perimeter, p.perimeter.points, p.perimeter.exits)
  }

  ghost predicate PartsSound(s: Parts) {
    && FileSound(s.file)
    && LanesSound(s.lanes) && LaneSound(s.lane)
    && SpotsSound(s.spots) && SpotSound(s.spot)
    && PerimeterSound(s.perimeter) && PointsSound(s.points) && ExitsSound(s.exits)
  }

  ghost predicate Sound(p: Parser) { PartsSound(PartsOf(p)) }

  lemma GeneralLineSound(p: Parser, key: Key, a: Args)
    requires Sound(p)
    ensures Sound(GeneralLine(p, key, a))
  {
  }

  lemma SegmentEndSound(p: Parser, a: Args)
    requires Sound(p)
    ensures Sound(SegmentLine(p, EndSegment, a))
  {
  }

  lemma SegmentHeader(p: Parser, key: Key, a: Args)
    requires key != EndSegment
    ensures PartsOf(SegmentLine(p, key, a)) == PartsOf(p)
  {
  }

  lemma SegmentLineSound(p: Parser, key: Key, a: Args)
    requires Sound(p) && ArgsSound(a)
    ensures Sound(SegmentLine(p, key, a))
  {
    if key == EndSegment {
      SegmentEndSound(p, a);
    } else {
      SegmentHeader(p, key, a);
    }
  }

  lemma ZoneEndSound(p: Parser, a: Args)
    requires Sound(p)
    ensures Sound(ZoneLine(p, EndZone, a))
  {
  }

  lemma ZoneHeader(p: Parser, key: Key, a: Args)
    requires key != EndZone
    ensures PartsOf(ZoneLine(p, key, a)) == PartsOf(p)
  {
  }

  lemma ZoneLineSound(p: Parser, key: Key, a: Args)
    requires Sound(p) && ArgsSound(a)
    ensures Sound(ZoneLine(p, key, a))
  {
    if key == EndZone {
      ZoneEndSound(p, a);
    } else {
      ZoneHeader(p, key, a);
    }
  }

  lemma LaneEndSound(p: Parser, a: Args)
    requires Sound(p)
    ensures Sound(LaneLine(p, EndLane, a))
  {
  }

  lemma LaneHeader(p: Parser, key: Key, a: Args)
    requires key !in {EndLane, CheckpointKey, StopKey, ExitKey}
    ensures PartsOf(LaneLine(p, key, a)) == PartsOf(p) || LaneLine(p, key, a) == LanePoint(p, a.point)
  {
  }

  lemma LaneCheckpointSound(p: Parser, a: Args)
    requires Sound(p) && ArgsSound(a)
    ensures Sound(LaneLine(p, CheckpointKey, a))
  {
  }

  lemma LaneStopSound(p: Parser, a: Args)
    requires Sound(p) && ArgsSound(a)
    ensures Sound(LaneLine(p, StopKey, a))
  {
  }

  lemma LaneExitSound(p: Parser, a: Args)
    requires Sound(p) && ArgsSound(a)
    ensures Sound(LaneLine(p, ExitKey, a))
  {
  }

  lemma LanePointSound(p: Parser, w: Option<Waypoint>)
    requires Sound(p) && (w.Some? ==> GoodWaypoint(w.value))
    ensures Sound(LanePoint(p, w))
  {
  }

  lemma LaneLineSound(p: Parser, key: Key, a: Args)
    requires Sound(p) && ArgsSound(a)
    ensures Sound(LaneLine(p, key, a))
  {
    if key == EndLane {
      LaneEndSound(p, a);
    } else if key == CheckpointKey {
      LaneCheckpointSound(p, a);
    } else if key == StopKey {
      LaneStopSound(p, a);
    } else if key == ExitKey {
      LaneExitSound(p, a);
    } else {
      LaneHeader(p, key, a);
      LanePointSound(p, a.point);
    }
  }

  lemma PerimeterEndSound(p: Parser, a: Args)
    requires Sound(p)
    ensures Sound(PerimeterLine(p, EndPerimeter, a))
  {
  }

  lemma PerimeterHeader(p: Parser, key: Key, a: Args)
    requires key != EndPerimeter && key != ExitKey
    ensures PartsOf(PerimeterLine(p, key, a)) == PartsOf(p) || PerimeterLine(p, key, a) == PerimeterPoint(p, a.point)
  {
  }

  lemma PerimeterExitSound(p: Parser, a: Args)
    requires Sound(p) && ArgsSound(a)
    ensures Sound(PerimeterLine(p, ExitKey, a))
  {
  }

  lemma PerimeterPointSound(p: Parser, w: Option<Waypoint>)
    requires Sound(p) && (w.Some? ==> GoodWaypoint(w.value))
    ensures Sound(PerimeterPoint(p, w))
  {
  }

  lemma PerimeterLineSound(p: Parser, key: Key, a: Args)
    requires Sound(p) && ArgsSound(a)
    ensures Sound(PerimeterLine(p, key, a))
  {
    if key == EndPerimeter {
      PerimeterEndSound(p, a);
    } else if key == ExitKey {
      PerimeterExitSound(p, a);
    } else {
      PerimeterHeader(p, key, a);
      PerimeterPointSound(p, a.point);
    }
  }

  lemma SpotEndSound(p: Parser, a: Args)
    requires Sound(p)
    ensures Sound(SpotLine(p, EndSpot, a))
  {
  }

  lemma SpotHeader(p: Parser, key: Key, a: Args)
    requires key != EndSpot && key != CheckpointKey
    ensures PartsOf(SpotLine(p, key, a)) == PartsOf(p) || SpotLine(p, key, a) == SpotPoint(p, a.point)
  {
  }

  lemma SpotCheckpointSound(p: Parser, a: Args)
    requires Sound(p) && ArgsSound(a)
    ensures Sound(SpotLine(p, CheckpointKey, a))
  {
  }

  lemma SpotPointSound(p: Parser, w: Option<Waypoint>)
    requires Sound(p) && (w.Some? ==> GoodWaypoint(w.value))
    ensures Sound(SpotPoint(p, w))
  {
  }

  lemma SpotLineSound(p: Parser, key: Key, a: Args)
    requires Sound(p) && ArgsSound(a)
    ensures Sound(SpotLine(p, key, a))
  {
    if key == EndSpot {
      SpotEndSound(p, a);
    } else if key == CheckpointKey {
      SpotCheckpointSound(p, a);
    } else {
      SpotHeader(p, key, a);
      SpotPointSound(p, a.point);
    }
  }

  lemma RoadSound(p: Parser, key: Key, a: Args)
    requires Sound(p) && ArgsSound(a) && (p.mode.GeneralMode? || p.mode.SegmentMode? || p.mode.LaneMode?)
    ensures Sound(Handle(p, key, a))
  {
    match p.mode
    case GeneralMode => GeneralLineSound(p, key, a);
    case SegmentMode => SegmentLineSound(p, key, a);
    case LaneMode => LaneLineSound(p, key, a);
  }

  lemma AreaSound(p: Parser, key: Key, a: Args)
    requires Sound(p) && ArgsSound(a) && (p.mode.ZoneMode? || p.mode.PerimeterMode? || p.mode.SpotMode?)
    ensures Sound(Handle(p, key, a))
  {
    match p.mode
    case ZoneMode => ZoneLineSound(p, key, a);
    case PerimeterMode => PerimeterLineSound(p, key, a);
    case SpotMode => SpotLineSound(p, key, a);
  }

  lemma HandleSound(p: Parser, key: Key, a: Args)
    requires Sound(p) && ArgsSound(a)
    ensures Sound(Handle(p, key, a))
  {
    match p.mode
    case GeneralMode | SegmentMode | LaneMode => RoadSound(p, key, a);
    case ZoneMode | PerimeterMode | SpotMode => AreaSound(p, key, a);
    case CommentMode | UnknownMode =>
  }

  lemma StepSound(p: Parser, line: string)
    requires Sound(p)
    ensures Sound(Step(p, line))
  {
    var token := FirstWord(line);
    var q := Enter(p, token);
    HandleSound(q, KeyOf(q.mode, token), ArgsAt(Place(q), token, line));
  }

  lemma {:induction false} RunSound(p: Parser, lines: seq<string>)
    requires Sound(p)
    ensures Sound(Run(p, lines))
    decreases |lines|
  {
    if lines != [] {
      RunCons(p, lines);
      StepSound(p, lines[0]);
      RunSound(Step(p, lines[0]), lines[1..]);
    }
  }

  /** Whatever text is read: an accepted file has only complete, valid segments, lanes, spots and zones. */
  lemma ParsedIsSound(lines: seq<string>)
    ensures Parsed(lines).Some? ==> FileSound(Parsed(lines).value)
  {
    RunSound(START, lines);
  }

  /** Nothing requires a file to describe anything: the empty one is accepted. */
  lemma EmptyFileIsAccepted()
    ensures Parsed([]) == Some(NO_FILE) && !FileValid(NO_FILE)
  {
  }

  // ---------------------------------------------------------------- blank lines and comments

  /** Only the previous mode may differ, and only where it will be overwritten before it is used. */
  predicate Alike(p: Parser, q: Parser) {
    p == q || (p == q.(previous := p.previous) && !p.mode.CommentMode?)
  }

  lemma PlaceAlike(p: Parser, q: Parser)
    requires Alike(p, q)
    ensures Place(p) == Place(q)
  {
  }

  lemma GeneralLineAlike(p: Parser, q: Parser, key: Key, a: Args)
    requires Alike(p, q)
    ensures Alike(GeneralLine(p, key, a), GeneralLine(q, key, a))
  {
  }

  lemma SegmentLineAlike(p: Parser, q: Parser, key: Key, a: Args)
    requires Alike(p, q)
    ensures Alike(SegmentLine(p, key, a), SegmentLine(q, key, a))
  {
  }

  lemma LaneLineAlike(p: Parser, q: Parser, key: Key, a: Args)
    requires Alike(p, q)
    ensures Alike(LaneLine(p, key, a), LaneLine(q, key, a))
  {
  }

  lemma ZoneLineAlike(p: Parser, q: Parser, key: Key, a: Args)
    requires Alike(p, q)
    ensures Alike(ZoneLine(p, key, a), ZoneLine(q, key, a))
  {
  }

  lemma PerimeterLineAlike(p: Parser, q: Parser, key: Key, a: Args)
    requires Alike(p, q)
    ensures Alike(PerimeterLine(p, key, a), PerimeterLine(q, key, a))
  {
  }

  lemma SpotLineAlike(p: Parser, q: Parser, key: Key, a: Args)
    requires Alike(p, q)
    ensures Alike(SpotLine(p, key, a), SpotLine(q, key, a))
  {
  }

  lemma HandleAlike(p: Parser, q: Parser, key: Key, a: Args)
    requires Alike(p, q)
    ensures Alike(Handle(p, key, a), Handle(q, key, a))
  {
    match p.mode
    case CommentMode =>
    case GeneralMode => GeneralLineAlike(p, q, key, a);
    case SegmentMode => SegmentLineAlike(p, q, key, a);
    case LaneMode => LaneLineAlike(p, q, key, a);
    case ZoneMode => ZoneLineAlike(p, q, key, a);
    case PerimeterMode => PerimeterLineAlike(p, q, key, a);
    case SpotMode => SpotLineAlike(p, q, key, a);
    case UnknownMode =>
  }

  lemma EnterAlike(p: Parser, q: Parser, token: string)
    requires Alike(p, q)
    ensures Alike(Enter(p, token), Enter(q, token))
  {
  }

  lemma StepAlike(p: Parser, q: Parser, line: string)
    requires Alike(p, q)
    ensures Alike(Step(p, line), Step(q, line))
  {
    var token := FirstWord(line);
    EnterAlike(p, q, token);
    var p1, q1 := Enter(p, token), Enter(q, token);
    PlaceAlike(p1, q1);
    HandleAlike(p1, q1, KeyOf(p1.mode, token), ArgsAt(Place(p1), token, line));
  }

  lemma {:induction false} RunAlike(p: Parser, q: Parser, lines: seq<string>)
    requires Alike(p, q)
    ensures Alike(Run(p, lines), Run(q, lines))
    decreases |lines|
  {
    if lines != [] {
      RunCons(p, lines);
      RunCons(q, lines);
      StepAlike(p, q, lines[0]);
      RunAlike(Step(p, lines[0]), Step(q, lines[0]), lines[1..]);
    }
  }

  /** Lines up to the first one that closes the comment, which is the last. */
  predicate ClosesComment(block: seq<string>) {
    && block != [] && !Blank(block[|block| - 1]) && Contains(block[|block| - 1], "*/")
    && forall i :: 0 <= i < |block| - 1 ==> Blank(block[i]) || !Contains(block[i], "*/")
  }

  /** A line that opens a comment followed by lines that close it. */
  predicate CommentBlock(block: seq<string>) {
    && ClosesComment(block) && !Blank(block[0])
    && EntryMode(FirstWord(block[0])).None? && Contains(FirstWord(block[0]), "/*")
  }

  lemma CommentStep(p: Parser, line: string)
    requires p.valid && p.mode.CommentMode?
    ensures Step(p, line) == if !Blank(line) && Contains(line, "*/") then p.(mode := p.previous) else p
  {
  }

  lemma {:induction false} CommentRuns(p: Parser, block: seq<string>)
    requires p.valid && p.mode.CommentMode? && ClosesComment(block)
    ensures Run(p, block) == p.(mode := p.previous)
  {
    RunCons(p, block);
    CommentStep(p, block[0]);
    if |block| > 1 {
      var rest := block[1..];
      assert rest[|rest| - 1] == block[|block| - 1];
      CommentRuns(p, rest);
    }
  }

  lemma CommentOpens(p: Parser, line: string)
    requires p.valid && !p.mode.CommentMode? && !Blank(line)
    requires EntryMode(FirstWord(line)).None? && Contains(FirstWord(line), "/*")
    ensures Step(p, line) == Step(To(p, CommentMode), line)
  {
  }

  lemma BlockRuns(p: Parser, block: seq<string>)
    requires p.valid && !p.mode.CommentMode? && CommentBlock(block)
    ensures Alike(Run(p, block), p)
  {
    var q := To(p, CommentMode);
    CommentOpens(p, block[0]);
    RunCons(p, block);
    RunCons(q, block);
    CommentRuns(q, block);
  }

  /** Blank lines, or a comment block outside of any other comment. */
  lemma InsertionIsInvisible(a: seq<string>, block: seq<string>, b: seq<string>)
    requires (forall l :: l in block ==> Blank(l)) || (CommentBlock(block) && !Run(START, a).mode.CommentMode?)
    ensures Parsed(a + block + b) == Parsed(a + b)
  {
    var p := Run(START, a);
    RunAppend(START, a, b);
    RunAppend(START, a + block, b);
    RunAppend(START, a, block);
    if !p.valid {
      Stuck(p, block);
    } else if forall l :: l in block ==> Blank(l) {
      BlankRuns(p, block);
    } else {
      BlockRuns(p, block);
    }
    RunAlike(Run(p, block), p, b);
  }

  lemma BlankRuns(p: Parser, block: seq<string>)
    requires forall l :: l in block ==> Blank(l)
    ensures Run(p, block) == p
  {
    FoldFixed(Step, p, block);
  }
}
