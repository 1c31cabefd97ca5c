/** The writer that prints recorded points as an RNDF, and its round trip through the parser. */
module RndfWriter {
  import opened WayPoints
  import opened Scanning
  import opened Rndf

  datatype Point = Point(lat: string, lng: string)

  datatype Area = Area(perimeter: seq<Point>, spots: seq<Point>)

  // ---------------------------------------------------------------- printing

  function Line(key: string, arg: string): string { key + ("\t" + arg) }

  /** The line that opens element y of x. */
  function ElementLine(key: string, x: int, y: int): string { Line(key, Print(x) + "." + Print(y)) }

  /** Way-point i of an element, counted from 1. */
  function PointLine(x: int, y: int, i: int, p: Point): string {
    Line(Dotted(x, y) + Print(i), Line(p.lat, p.lng))
  }

  /** The first n points. */
  function PointLines(x: int, y: int, points: seq<Point>): seq<string> {
    if points == [] then []
    else
      var n := |points| - 1;
      PointLines(x, y, points[..n]) + [PointLine(x, y, n + 1, points[n])]
  }

  function LaneLines(x: int, lane: seq<Point>): seq<string> {
    [Line("segment", Print(x)), Line("num_lanes", Print(1)), ElementLine("lane", x, 1),
     Line("num_waypoints", Print(|lane|))]
    + PointLines(x, 1, lane)
    + ["end_lane", "end_segment"]
  }

  /** One part after another. */
  function Concat(parts: seq<seq<string>>): seq<string> {
    if parts == [] then [] else Concat(parts[..|parts| - 1]) + parts[|parts| - 1]
  }

  /** Lanes are numbered as segments from 1. */
  function LaneParts(lanes: seq<seq<Point>>): (r: seq<seq<string>>)
    ensures |r| == |lanes|
  {
    seq(|lanes|, i requires 0 <= i < |lanes| => LaneLines(i + 1, lanes[i]))
  }

  function AllLaneLines(lanes: seq<seq<Point>>): seq<string> { Concat(LaneParts(lanes)) }

  /** A spot opens at every even point and closes after every odd one. */
  function SpotLines(x: int, i: nat, p: Point): seq<string> {
    var y := i / 2 + 1;
    if i % 2 == 0 then [ElementLine("spot", x, y), PointLine(x, y, 1, p)]
    else [PointLine(x, y, 2, p), "end_spot"]
  }

  function SpotPointLines(x: int, spots: seq<Point>): seq<string> {
    if spots == [] then []
    else
      var i := |spots| - 1;
      SpotPointLines(x, spots[..i]) + SpotLines(x, i, spots[i])
  }

  function ZoneHeader(x: int, spots: nat, points: nat): seq<string> {
    [Line("zone", Print(x)), Line("num_spots", Print(spots)), ElementLine("perimeter", x, 0),
     Line("num_perimeterpoints", Print(points))]
  }

  /** The last spot is closed here if its second point is missing. */
  function ZoneFooter(spots: nat): seq<string> {
    if spots % 2 == 0 then ["end_zone"] else ["end_spot", "end_zone"]
  }

  function AreaLines(x: int, area: Area): seq<string> {
    ZoneHeader(x, (|area.spots| + 1) / 2, |area.perimeter|)
    + (PointLines(x, 0, area.perimeter) + ["end_perimeter"])
    + SpotPointLines(x, area.spots)
    + ZoneFooter(|area.spots|)
  }

  function AreaParts(first: int, areas: seq<Area>): (r: seq<seq<string>>)
    ensures |r| == |areas|
  {
    seq(|areas|, i requires 0 <= i < |areas| => AreaLines(i + first, areas[i]))
  }

  function AllAreaLines(first: int, areas: seq<Area>): seq<string> { Concat(AreaParts(first, areas)) }

  function Written(name: string, lanes: seq<seq<Point>>, areas: seq<Area>): seq<string> {
    [Line("RNDF_name", name), Line("num_segments", Print(|lanes|)), Line("num_zones", Print(|areas|))]
    + AllLaneLines(lanes)
    + AllAreaLines(|lanes| + 1, areas)
    + ["end_file"]
  }

  // ---------------------------------------------------------------- what the points describe

  ghost predicate Recorded(points: seq<Point>) {
    forall i :: 0 <= i < |points| ==> Coordinate(points[i].lat) && Coordinate(points[i].lng)
  }

  ghost predicate AllRecorded(lanes: seq<seq<Point>>, areas: seq<Area>) {
    && (forall i :: 0 <= i < |lanes| ==> Recorded(lanes[i]))
    && (forall i :: 0 <= i < |areas| ==> Recorded(areas[i].perimeter) && Recorded(areas[i].spots))
  }

  function Waypoints(points: seq<Point>): (r: seq<Waypoint>)
    ensures |r| == |points|
  {
    seq(|points|, i requires 0 <= i < |points| => Waypoint(i + 1, points[i].lat, points[i].lng))
  }

  function LaneOf(lane: seq<Point>): Lane {
    Lane(1, |lane|, Waypoints(lane), 0, Undefined, Undefined, [], [], [])
  }

  /** Lane k is the only lane of segment k + 1. */
  function Segments(lanes: seq<seq<Point>>): (r: seq<Segment>)
    ensures |r| == |lanes|
  {
    seq(|lanes|, i requires 0 <= i < |lanes| => Segment(i + 1, 1, "default", [LaneOf(lanes[i])]))
  }

  /** Spot k holds points 2k and, if it was recorded, 2k + 1. */
  function SpotOf(points: seq<Point>, k: nat): Spot
    requires 2 * k < |points|
  {
    Spot(k + 1, 0, NO_CHECKPOINT, Waypoints(points[2 * k..Least(2 * k + 2, |points|)]))
  }

  function Spots(points: seq<Point>): (r: seq<Spot>)
    ensures |r| == (|points| + 1) / 2
  {
    seq((|points| + 1) / 2, k requires 0 <= k < (|points| + 1) / 2 => SpotOf(points, k))
  }

  function Least(a: int, b: int): int { if a < b then a else b }

  function ZoneOf(x: int, area: Area): Zone {
    Zone(x, (|area.spots| + 1) / 2, "default",
         Perimeter(0, |area.perimeter|, [], Waypoints(area.perimeter)), Spots(area.spots))
  }

  function Zones(first: int, areas: seq<Area>): (r: seq<Zone>)
    ensures |r| == |areas|
  {
    seq(|areas|, i requires 0 <= i < |areas| => ZoneOf(first + i, areas[i]))
  }

  function FileOf(name: string, lanes: seq<seq<Point>>, areas: seq<Area>): File {
    File(FirstWord(name), |lanes|, |areas|, "", "", Segments(lanes), Zones(|lanes| + 1, areas))
  }

  // ---------------------------------------------------------------- reading single lines

  lemma NoSlash(s: string)
    requires forall i :: 0 <= i < |s| ==> s[i] != '/'
    ensures !Contains(s, "/*")
  {
    forall i: nat | i <= |s| ensures !OccursAt(s, "/*", i) {
      if i + 2 <= |s| { assert s[i..][..2][0] == s[i]; }
    }
  }

  lemma TextRead(t: string, rest: string)
    ensures ScanText(t, t + rest) == Match((), rest)
  {
    assert (t + rest)[..|t|] == t && (t + rest)[|t|..] == rest;
  }

  lemma NumberArg(w: string, n: nat)
    requires IsWord(w)
    ensures IntArg(Line(w, Print(n))) == Some(n)
  {
    var s := Decimal(n);
    WordRead(w, "\t" + s);
    IntRead(n, "");
    assert s + "" == s;
  }

  lemma TextArg(w: string, arg: string)
    requires IsWord(w)
    ensures StringArg(Line(w, arg)) == FirstWord(arg)
  {
    WordRead(w, "\t" + arg);
    SpaceSkipped(arg);
  }

  lemma DigitFirst(t: string, rest: string)
    requires t != "" && IsDigit(t[0])
    ensures SkipSpace("\t" + (t + rest)) == t + rest
  {
    SpaceSkipped(t + rest);
    assert (t + rest)[0] == t[0];
  }

  lemma DottedRead(key: string, prefix: string, y: nat)
    requires prefix != "" && IsDigit(prefix[0])
    ensures DottedArg(key, prefix, Line(key, prefix + Print(y))) == Match(y, "")
  {
    TextRead(key, "\t" + (prefix + Print(y)));
    DigitFirst(prefix, Print(y));
    TextRead(prefix, Print(y));
    IntRead(y, "");
    assert Decimal(y) + "" == Decimal(y);
  }

  /** A way-point as it is read back: its number counts from 1. */
  function AsRead(i: nat, p: Point): Option<Waypoint> { if i > 0 then Some(Waypoint(i, p.lat, p.lng)) else None }

  lemma WaypointScanned(i: nat, lat: string, lng: string)
    requires Coordinate(lat) && Coordinate(lng)
    ensures ScanWaypoint(Print(i) + ("\t" + Line(lat, lng))) == AsRead(i, Point(lat, lng))
  {
    IntRead(i, "\t" + Line(lat, lng));
    RealRead(lat, "\t" + lng);
    RealRead(lng, "");
    assert lng + "" == lng;
  }

  lemma PointLineParts(x: int, y: int, i: int, p: Point)
    ensures PointLine(x, y, i, p) == Dotted(x, y) + (Print(i) + ("\t" + Line(p.lat, p.lng)))
  {}

  lemma WaypointFound(x: int, y: int, line: string, prefix: string, rest: string, point: Option<Waypoint>)
    requires prefix == Dotted(x, y) && line == prefix + rest && ScanWaypoint(rest) == point
    ensures WaypointArg(x, y, line) == point
  {
    TextRead(prefix, rest);
  }

  lemma WaypointRead(x: nat, y: nat, i: nat, p: Point)
    requires Coordinate(p.lat) && Coordinate(p.lng)
    ensures WaypointArg(x, y, PointLine(x, y, i, p)) == AsRead(i, p)
  {
    PointLineParts(x, y, i, p);
    WaypointScanned(i, p.lat, p.lng);
    WaypointFound(x, y, PointLine(x, y, i, p), Dotted(x, y), Print(i) + ("\t" + Line(p.lat, p.lng)),
                  AsRead(i, p));
  }

  predicate DigitsAndDots(s: string) { forall i :: 0 <= i < |s| ==> IsDigit(s[i]) || s[i] == '.' }

  lemma TokenOf(prefix: string, number: string)
    requires DigitsAndDots(prefix) && DigitsAndDots(number) && prefix != "" && IsDigit(prefix[0])
    ensures var w := prefix + number;
      IsWord(w) && IsDigit(w[0]) && Contains(w, prefix) && !Contains(w, "/*")
  {
    var w := prefix + number;
    assert w[0..] == w && w[..|prefix|] == prefix;
    assert OccursAt(w, prefix, 0);
    NoSlash(w);
  }

  // ---------------------------------------------------------------- key words

  lemma DigitIsNoEntry(w: string)
    requires w != "" && IsDigit(w[0])
    ensures EntryMode(w) == None
  {
  }

  lemma DigitIsNoLaneKey(w: string)
    requires w != "" && IsDigit(w[0])
    ensures KeyOf(LaneMode, w) == Other
  {
  }

  lemma DigitIsNoAreaKey(w: string)
    requires w != "" && IsDigit(w[0])
    ensures KeyOf(PerimeterMode, w) == Other && KeyOf(SpotMode, w) == Other
  {
  }

  /** A word that changes no mode and opens no comment. */
  predicate Plain(w: string) { IsWord(w) && EntryMode(w) == None && !Contains(w, "/*") }

  lemma NumSegmentsWord()
    ensures Plain("num_segments") && KeyOf(GeneralMode, "num_segments") == NumSegments
  {
    NoSlash("num_segments");
  }

  lemma NumZonesWord()
    ensures Plain("num_zones") && KeyOf(GeneralMode, "num_zones") == NumZones
  {
    NoSlash("num_zones");
  }

  lemma EndFileWord()
    ensures Plain("end_file") && KeyOf(GeneralMode, "end_file") == EndFile
  {
    NoSlash("end_file");
  }

  lemma NumLanesWord()
    ensures Plain("num_lanes") && KeyOf(SegmentMode, "num_lanes") == NumLanes
  {
    NoSlash("num_lanes");
  }

  lemma EndSegmentWord()
    ensures Plain("end_segment") && KeyOf(SegmentMode, "end_segment") == EndSegment
  {
    NoSlash("end_segment");
  }

  lemma NumWaypointsWord()
    ensures Plain("num_waypoints") && KeyOf(LaneMode, "num_waypoints") == NumWaypoints
  {
    NoSlash("num_waypoints");
  }

  lemma EndLaneWord()
    ensures Plain("end_lane") && KeyOf(LaneMode, "end_lane") == EndLane
  {
    NoSlash("end_lane");
  }

  lemma NumSpotsWord()
    ensures Plain("num_spots") && KeyOf(ZoneMode, "num_spots") == NumSpots
  {
    NoSlash("num_spots");
  }

  lemma EndZoneWord()
    ensures Plain("end_zone") && KeyOf(ZoneMode, "end_zone") == EndZone
  {
    NoSlash("end_zone");
  }

  lemma NumPerimeterpointsWord()
    ensures Plain("num_perimeterpoints") && KeyOf(PerimeterMode, "num_perimeterpoints") == NumPerimeterPoints
  {
    NoSlash("num_perimeterpoints");
  }

  lemma EndPerimeterWord()
    ensures Plain("end_perimeter") && KeyOf(PerimeterMode, "end_perimeter") == EndPerimeter
  {
    NoSlash("end_perimeter");
  }

  lemma EndSpotWord()
    ensures Plain("end_spot") && KeyOf(SpotMode, "end_spot") == EndSpot
  {
    NoSlash("end_spot");
  }

  lemma RNDFNameWord()
    ensures IsWord("RNDF_name") && EntryMode("RNDF_name") == Some(GeneralMode) && KeyOf(GeneralMode, "RNDF_name") == RndfName
  {
  }

  lemma SegmentWord()
    ensures IsWord("segment") && EntryMode("segment") == Some(SegmentMode) && KeyOf(SegmentMode, "segment") == SegmentKey
  {
  }

  lemma LaneWord()
    ensures IsWord("lane") && EntryMode("lane") == Some(LaneMode) && KeyOf(LaneMode, "lane") == LaneKey
  {
  }

  lemma ZoneWord()
    ensures IsWord("zone") && EntryMode("zone") == Some(ZoneMode) && KeyOf(ZoneMode, "zone") == ZoneKey
  {
  }

  lemma PerimeterWord()
    ensures IsWord("perimeter") && EntryMode("perimeter") == Some(PerimeterMode) && KeyOf(PerimeterMode, "perimeter") == PerimeterKey
  {
  }

  lemma SpotWord()
    ensures IsWord("spot") && EntryMode("spot") == Some(SpotMode) && KeyOf(SpotMode, "spot") == SpotKey
  {
  }

  /** The first word of a way-point line: no key word, and it holds the element's prefix. */
  ghost function PointWord(x: nat, y: nat, i: nat): (w: string)
    ensures w == Dotted(x, y) + Print(i)
    ensures Plain(w) && IsDigit(w[0]) && Contains(w, Dotted(x, y))
  {
    var prefix := Dotted(x, y);
    assert prefix[0] == Decimal(x)[0];
    TokenOf(prefix, Decimal(i));
    DigitIsNoEntry(prefix + Decimal(i));
    prefix + Decimal(i)
  }

  // ---------------------------------------------------------------- single steps

  ghost predicate Reading(p: Parser) { p.valid && !p.mode.CommentMode? }

  /** What the formats read of a line in a state. */
  function Reads(p: Parser, w: string, line: string): Rndf.Args { ArgsAt(Place(p), w, line) }

  lemma PlainStep(p: Parser, w: string, rest: string)
    requires Reading(p) && Plain(w) && WordEnds(rest)
    ensures Step(p, w + rest) == Handle(p, KeyOf(p.mode, w), Reads(p, w, w + rest))
  {
    WordRead(w, rest);
  }

  lemma EntryStep(p: Parser, w: string, rest: string)
    requires Reading(p) && IsWord(w) && EntryMode(w).Some? && WordEnds(rest)
    ensures var q := To(p, EntryMode(w).value); Step(p, w + rest) == Handle(q, KeyOf(q.mode, w), Reads(q, w, w + rest))
  {
    WordRead(w, rest);
  }

  lemma BareStep(p: Parser, w: string)
    requires Reading(p) && Plain(w)
    ensures Step(p, w) == Handle(p, KeyOf(p.mode, w), Reads(p, w, w))
  {
    PlainStep(p, w, "");
    assert w + "" == w;
  }

  /** A line of a key word alone. */
  lemma KeyStep(p: Parser, w: string, key: Key)
    requires Reading(p) && Plain(w) && KeyOf(p.mode, w) == key
    ensures exists a: Rndf.Args :: Step(p, w) == Handle(p, key, a)
  {
    BareStep(p, w);
  }

  /** A line of a key word and a number. */
  lemma NumberStep(p: Parser, w: string, n: nat, key: Key)
    requires Reading(p) && Plain(w) && KeyOf(p.mode, w) == key
    ensures exists a: Rndf.Args :: a.number == Some(n) && Step(p, Line(w, Print(n))) == Handle(p, key, a)
  {
    PlainStep(p, w, "\t" + Print(n));
    NumberArg(w, n);
    assert Reads(p, w, Line(w, Print(n))).number == Some(n);
  }

  /** A line of a key word that enters its mode and a number. */
  lemma NumberEntry(p: Parser, w: string, n: nat, mode: Mode, key: Key)
    requires Reading(p) && IsWord(w) && EntryMode(w) == Some(mode) && KeyOf(mode, w) == key
    ensures exists a: Rndf.Args :: a.number == Some(n) && Step(p, Line(w, Print(n))) == Handle(To(p, mode), key, a)
  {
    EntryStep(p, w, "\t" + Print(n));
    NumberArg(w, n);
    assert Reads(To(p, mode), w, Line(w, Print(n))).number == Some(n);
  }

  /** A line that opens an element below its mode. */
  lemma DottedEntry(p: Parser, w: string, x: int, rest: string, n: int, mode: Mode, key: Key)
    requires Reading(p) && IsWord(w) && EntryMode(w) == Some(mode) && KeyOf(mode, w) == key && WordEnds(rest)
    requires Place(To(p, mode)).0 == w && Place(To(p, mode)).1 == x
    requires DottedArg(w, Print(x) + ".", w + rest) == Match(n, "")
    ensures exists a: Rndf.Args :: a.opening == Match(n, "") && Step(p, w + rest) == Handle(To(p, mode), key, a)
  {
    EntryStep(p, w, rest);
    assert Reads(To(p, mode), w, w + rest).opening == Match(n, "");
  }

  lemma ElementEntry(p: Parser, w: string, x: nat, y: nat, mode: Mode, key: Key)
    requires Reading(p) && IsWord(w) && EntryMode(w) == Some(mode) && KeyOf(mode, w) == key
    requires Place(To(p, mode)).0 == w && Place(To(p, mode)).1 == x
    ensures exists a: Rndf.Args :: a.opening == Match(y, "") && Step(p, ElementLine(w, x, y)) == Handle(To(p, mode), key, a)
  {
    DottedRead(w, Print(x) + ".", y);
    DottedEntry(p, w, x, "\t" + (Print(x) + "." + Print(y)), y, mode, key);
  }

  /** A line of a way-point. */
  lemma PointStep(p: Parser, w: string, rest: string, line: string, point: Option<Waypoint>)
    requires Reading(p) && Plain(w) && KeyOf(p.mode, w) == Other && WordEnds(rest) && line == w + rest
    requires PointArg(Place(p).1, Place(p).2, w, line) == point
    ensures exists a: Rndf.Args :: a.point == point && Step(p, line) == Handle(p, Other, a)
  {
    PlainStep(p, w, rest);
    assert Reads(p, w, line).point == point;
  }

  /** A printed way-point, read below its element. */
  lemma PrintedPoint(p: Parser, x: nat, y: nat, i: nat, pt: Point, line: string, point: Option<Waypoint>)
    requires Reading(p) && Place(p).1 == x && Place(p).2 == y && p.mode in {LaneMode, PerimeterMode, SpotMode}
    requires Coordinate(pt.lat) && Coordinate(pt.lng)
    requires line == PointLine(x, y, i, pt) && point == AsRead(i, pt)
    ensures exists a: Rndf.Args :: a.point == point && Step(p, line) == Handle(p, Other, a)
  {
    var w := PointWord(x, y, i);
    DigitIsNoLaneKey(w);
    DigitIsNoAreaKey(w);
    WaypointRead(x, y, i, pt);
    PointStep(p, w, "\t" + Line(pt.lat, pt.lng), line, point);
  }

  lemma NameStep(p: Parser, name: string)
    requires Reading(p)
    ensures Step(p, Line("RNDF_name", name)) == To(p, GeneralMode).(file := p.file.(name := FirstWord(name)))
  {
    RNDFNameWord();
    EntryStep(p, "RNDF_name", "\t" + name);
    TextArg("RNDF_name", name);
    assert Reads(To(p, GeneralMode), "RNDF_name", Line("RNDF_name", name)).text == FirstWord(name);
  }

  lemma SegmentCountAct(p: Parser, a: Rndf.Args, n: nat)
    requires p.mode == GeneralMode && Reading(p) && a.number == Some(n)
    ensures Handle(p, NumSegments, a) == if n > 0 then p.(file := p.file.(segmentCount := n)) else Fail(p)
  {}

  lemma SegmentCountStep(p: Parser, n: nat)
    requires Reading(p) && p.mode == GeneralMode
    ensures Step(p, Line("num_segments", Print(n))) == if n > 0 then p.(file := p.file.(segmentCount := n)) else Fail(p)
  {
    NumSegmentsWord();
    NumberStep(p, "num_segments", n, NumSegments);
    var a: Rndf.Args :| a.number == Some(n) && Step(p, Line("num_segments", Print(n))) == Handle(p, NumSegments, a);
    SegmentCountAct(p, a, n);
  }

  lemma ZoneCountAct(p: Parser, a: Rndf.Args, n: nat)
    requires p.mode == GeneralMode && Reading(p) && a.number == Some(n)
    ensures Handle(p, NumZones, a) == p.(file := p.file.(zoneCount := n))
  {}

  lemma ZoneCountStep(p: Parser, n: nat)
    requires Reading(p) && p.mode == GeneralMode
    ensures Step(p, Line("num_zones", Print(n))) == p.(file := p.file.(zoneCount := n))
  {
    NumZonesWord();
    NumberStep(p, "num_zones", n, NumZones);
    var a: Rndf.Args :| a.number == Some(n) && Step(p, Line("num_zones", Print(n))) == Handle(p, NumZones, a);
    ZoneCountAct(p, a, n);
  }

  lemma EndFileAct(p: Parser, a: Rndf.Args)
    requires p.mode == GeneralMode && Reading(p)
    ensures Handle(p, EndFile, a) == if FileValid(p.file) then p else Fail(p)
  {}

  lemma EndFileStep(p: Parser)
    requires Reading(p) && p.mode == GeneralMode
    ensures Step(p, "end_file") == if FileValid(p.file) then p else Fail(p)
  {
    EndFileWord();
    KeyStep(p, "end_file", EndFile);
    var a: Rndf.Args :| Step(p, "end_file") == Handle(p, EndFile, a);
    EndFileAct(p, a);
  }

  lemma SegmentAct(p: Parser, a: Rndf.Args, x: nat)
    requires Reading(p) && a.number == Some(x)
    ensures var q := To(p, SegmentMode);
      Handle(q, SegmentKey, a) == if x > 0 then q.(segment := p.segment.(id := x)) else Fail(q)
  {}

  lemma SegmentStep(p: Parser, x: nat)
    requires Reading(p)
    ensures var q := To(p, SegmentMode);
      Step(p, Line("segment", Print(x))) == if x > 0 then q.(segment := p.segment.(id := x)) else Fail(q)
  {
    SegmentWord();
    NumberEntry(p, "segment", x, SegmentMode, SegmentKey);
    var a: Rndf.Args :| a.number == Some(x) && Step(p, Line("segment", Print(x))) == Handle(To(p, SegmentMode), SegmentKey, a);
    SegmentAct(p, a, x);
  }

  lemma LaneCountAct(p: Parser, a: Rndf.Args, n: nat)
    requires p.mode == SegmentMode && Reading(p) && a.number == Some(n)
    ensures Handle(p, NumLanes, a) == if n > 0 then p.(segment := p.segment.(count := n)) else Fail(p)
  {}

  lemma LaneCountStep(p: Parser, n: nat)
    requires Reading(p) && p.mode == SegmentMode
    ensures Step(p, Line("num_lanes", Print(n))) == if n > 0 then p.(segment := p.segment.(count := n)) else Fail(p)
  {
    NumLanesWord();
    NumberStep(p, "num_lanes", n, NumLanes);
    var a: Rndf.Args :| a.number == Some(n) && Step(p, Line("num_lanes", Print(n))) == Handle(p, NumLanes, a);
    LaneCountAct(p, a, n);
  }

  lemma LaneAct(p: Parser, a: Rndf.Args, y: nat)
    requires Reading(p) && a.opening == Match(y, "")
    ensures var q := To(p, LaneMode); Handle(q, LaneKey, a) == if y > 0 then q.(lane := p.lane.(id := y)) else Fail(q)
  {}

  lemma LaneStep(p: Parser, x: nat, y: nat)
    requires Reading(p) && p.segment.id == x
    ensures var q := To(p, LaneMode);
      Step(p, ElementLine("lane", x, y)) == if y > 0 then q.(lane := p.lane.(id := y)) else Fail(q)
  {
    LaneWord();
    ElementEntry(p, "lane", x, y, LaneMode, LaneKey);
    var a: Rndf.Args :| a.opening == Match(y, "") && Step(p, ElementLine("lane", x, y)) == Handle(To(p, LaneMode), LaneKey, a);
    LaneAct(p, a, y);
  }

  lemma WaypointCountAct(p: Parser, a: Rndf.Args, n: nat)
    requires p.mode == LaneMode && Reading(p) && a.number == Some(n)
    ensures Handle(p, NumWaypoints, a) == if n > 0 then p.(lane := p.lane.(count := n)) else Fail(p)
  {}

  lemma WaypointCountStep(p: Parser, n: nat)
    requires Reading(p) && p.mode == LaneMode
    ensures Step(p, Line("num_waypoints", Print(n))) == if n > 0 then p.(lane := p.lane.(count := n)) else Fail(p)
  {
    NumWaypointsWord();
    NumberStep(p, "num_waypoints", n, NumWaypoints);
    var a: Rndf.Args :| a.number == Some(n) && Step(p, Line("num_waypoints", Print(n))) == Handle(p, NumWaypoints, a);
    WaypointCountAct(p, a, n);
  }

  lemma LanePointAct(p: Parser, a: Rndf.Args, point: Option<Waypoint>)
    requires p.mode == LaneMode && a.point == point
    ensures Handle(p, Other, a) == LanePoint(p, point)
  {}

  lemma LanePointStep(p: Parser, i: nat, pt: Point)
    requires Reading(p) && p.mode == LaneMode && p.segment.id >= 0 && p.lane.id >= 0
    requires Coordinate(pt.lat) && Coordinate(pt.lng)
    ensures Step(p, PointLine(p.segment.id, p.lane.id, i, pt)) == LanePoint(p, AsRead(i, pt))
  {
    var line, point := PointLine(p.segment.id, p.lane.id, i, pt), AsRead(i, pt);
    PrintedPoint(p, p.segment.id, p.lane.id, i, pt, line, point);
    var a: Rndf.Args :| a.point == point && Step(p, line) == Handle(p, Other, a);
    LanePointAct(p, a, point);
  }

  lemma EndLaneAct(p: Parser, a: Rndf.Args)
    requires p.mode == LaneMode && Reading(p)
    ensures Handle(p, EndLane, a) ==
      if LaneValid(p.lane)
      then To(p, SegmentMode).(segment := p.segment.(lanes := p.segment.lanes + [p.lane]), lane := NO_LANE)
      else Fail(p)
  {}

  lemma EndLaneStep(p: Parser)
    requires Reading(p) && p.mode == LaneMode
    ensures Step(p, "end_lane") ==
      if LaneValid(p.lane)
      then To(p, SegmentMode).(segment := p.segment.(lanes := p.segment.lanes + [p.lane]), lane := NO_LANE)
      else Fail(p)
  {
    EndLaneWord();
    KeyStep(p, "end_lane", EndLane);
    var a: Rndf.Args :| Step(p, "end_lane") == Handle(p, EndLane, a);
    EndLaneAct(p, a);
  }

  lemma EndSegmentAct(p: Parser, a: Rndf.Args)
    requires p.mode == SegmentMode && Reading(p)
    ensures Handle(p, EndSegment, a) ==
      if SegmentValid(p.segment)
      then To(p, GeneralMode).(file := p.file.(segments := p.file.segments + [p.segment]), segment := NO_SEGMENT)
      else Fail(p)
  {}

  lemma EndSegmentStep(p: Parser)
    requires Reading(p) && p.mode == SegmentMode
    ensures Step(p, "end_segment") ==
      if SegmentValid(p.segment)
      then To(p, GeneralMode).(file := p.file.(segments := p.file.segments + [p.segment]), segment := NO_SEGMENT)
      else Fail(p)
  {
    EndSegmentWord();
    KeyStep(p, "end_segment", EndSegment);
    var a: Rndf.Args :| Step(p, "end_segment") == Handle(p, EndSegment, a);
    EndSegmentAct(p, a);
  }

  lemma ZoneAct(p: Parser, a: Rndf.Args, x: nat)
    requires Reading(p) && a.number == Some(x)
    ensures var q := To(p, ZoneMode); Handle(q, ZoneKey, a) == if x > 0 then q.(zone := p.zone.(id := x)) else Fail(q)
  {}

  lemma ZoneStep(p: Parser, x: nat)
    requires Reading(p)
    ensures var q := To(p, ZoneMode);
      Step(p, Line("zone", Print(x))) == if x > 0 then q.(zone := p.zone.(id := x)) else Fail(q)
  {
    ZoneWord();
    NumberEntry(p, "zone", x, ZoneMode, ZoneKey);
    var a: Rndf.Args :| a.number == Some(x) && Step(p, Line("zone", Print(x))) == Handle(To(p, ZoneMode), ZoneKey, a);
    ZoneAct(p, a, x);
  }

  lemma SpotCountAct(p: Parser, a: Rndf.Args, n: nat)
    requires p.mode == ZoneMode && Reading(p) && a.number == Some(n)
    ensures Handle(p, NumSpots, a) == p.(zone := p.zone.(count := n))
  {}

  lemma SpotCountStep(p: Parser, n: nat)
    requires Reading(p) && p.mode == ZoneMode
    ensures Step(p, Line("num_spots", Print(n))) == p.(zone := p.zone.(count := n))
  {
    NumSpotsWord();
    NumberStep(p, "num_spots", n, NumSpots);
    var a: Rndf.Args :| a.number == Some(n) && Step(p, Line("num_spots", Print(n))) == Handle(p, NumSpots, a);
    SpotCountAct(p, a, n);
  }

  lemma PerimeterAct(p: Parser, a: Rndf.Args, y: nat)
    requires Reading(p) && a.opening == Match(y, "")
    ensures var q := To(p, PerimeterMode);
      Handle(q, PerimeterKey, a) == if y == 0 then q.(perimeter := p.perimeter.(id := 0)) else Fail(q)
  {}

  lemma PerimeterStep(p: Parser, x: nat, y: nat)
    requires Reading(p) && p.zone.id == x
    ensures var q := To(p, PerimeterMode);
      Step(p, ElementLine("perimeter", x, y)) == if y == 0 then q.(perimeter := p.perimeter.(id := 0)) else Fail(q)
  {
    PerimeterWord();
    ElementEntry(p, "perimeter", x, y, PerimeterMode, PerimeterKey);
    var a: Rndf.Args :| a.opening == Match(y, "") && Step(p, ElementLine("perimeter", x, y)) == Handle(To(p, PerimeterMode), PerimeterKey, a);
    PerimeterAct(p, a, y);
  }

  lemma PointCountAct(p: Parser, a: Rndf.Args, n: nat)
    requires p.mode == PerimeterMode && Reading(p) && a.number == Some(n)
    ensures Handle(p, NumPerimeterPoints, a) ==
      if n > 0 then p.(perimeter := p.perimeter.(count := n)) else Fail(p)
  {}

  lemma PointCountStep(p: Parser, n: nat)
    requires Reading(p) && p.mode == PerimeterMode
    ensures Step(p, Line("num_perimeterpoints", Print(n))) ==
      if n > 0 then p.(perimeter := p.perimeter.(count := n)) else Fail(p)
  {
    NumPerimeterpointsWord();
    NumberStep(p, "num_perimeterpoints", n, NumPerimeterPoints);
    var a: Rndf.Args :| a.number == Some(n) && Step(p, Line("num_perimeterpoints", Print(n))) == Handle(p, NumPerimeterPoints, a);
    PointCountAct(p, a, n);
  }

  lemma PerimeterPointAct(p: Parser, a: Rndf.Args, point: Option<Waypoint>)
    requires p.mode == PerimeterMode && a.point == point
    ensures Handle(p, Other, a) == PerimeterPoint(p, point)
  {}

  lemma PerimeterPointStep(p: Parser, i: nat, pt: Point)
    requires Reading(p) && p.mode == PerimeterMode && p.zone.id >= 0
    requires Coordinate(pt.lat) && Coordinate(pt.lng)
    ensures Step(p, PointLine(p.zone.id, 0, i, pt)) == PerimeterPoint(p, AsRead(i, pt))
  {
    var line, point := PointLine(p.zone.id, 0, i, pt), AsRead(i, pt);
    PrintedPoint(p, p.zone.id, 0, i, pt, line, point);
    var a: Rndf.Args :| a.point == point && Step(p, line) == Handle(p, Other, a);
    PerimeterPointAct(p, a, point);
  }

  lemma EndPerimeterAct(p: Parser, a: Rndf.Args)
    requires p.mode == PerimeterMode && Reading(p)
    ensures Handle(p, EndPerimeter, a) ==
      if PerimeterValid(p.perimeter)
      then To(p, ZoneMode).(zone := p.zone.(perimeter := p.perimeter), perimeter := NO_PERIMETER)
      else Fail(p)
  {}

  lemma EndPerimeterStep(p: Parser)
    requires Reading(p) && p.mode == PerimeterMode
    ensures Step(p, "end_perimeter") ==
      if PerimeterValid(p.perimeter)
      then To(p, ZoneMode).(zone := p.zone.(perimeter := p.perimeter), perimeter := NO_PERIMETER)
      else Fail(p)
  {
    EndPerimeterWord();
    KeyStep(p, "end_perimeter", EndPerimeter);
    var a: Rndf.Args :| Step(p, "end_perimeter") == Handle(p, EndPerimeter, a);
    EndPerimeterAct(p, a);
  }

  lemma SpotAct(p: Parser, a: Rndf.Args, y: nat)
    requires Reading(p) && a.opening == Match(y, "")
    ensures var q := To(p, SpotMode); Handle(q, SpotKey, a) == if y > 0 then q.(spot := p.spot.(id := y)) else Fail(q)
  {}

  lemma SpotStep(p: Parser, x: nat, y: nat)
    requires Reading(p) && p.zone.id == x
    ensures var q := To(p, SpotMode);
      Step(p, ElementLine("spot", x, y)) == if y > 0 then q.(spot := p.spot.(id := y)) else Fail(q)
  {
    SpotWord();
    ElementEntry(p, "spot", x, y, SpotMode, SpotKey);
    var a: Rndf.Args :| a.opening == Match(y, "") && Step(p, ElementLine("spot", x, y)) == Handle(To(p, SpotMode), SpotKey, a);
    SpotAct(p, a, y);
  }

  lemma SpotPointAct(p: Parser, a: Rndf.Args, point: Option<Waypoint>)
    requires p.mode == SpotMode && a.point == point
    ensures Handle(p, Other, a) == SpotPoint(p, point)
  {}

  lemma SpotPointStep(p: Parser, i: nat, pt: Point)
    requires Reading(p) && p.mode == SpotMode && p.zone.id >= 0 && p.spot.id >= 0
    requires Coordinate(pt.lat) && Coordinate(pt.lng)
    ensures Step(p, PointLine(p.zone.id, p.spot.id, i, pt)) == SpotPoint(p, AsRead(i, pt))
  {
    var line, point := PointLine(p.zone.id, p.spot.id, i, pt), AsRead(i, pt);
    PrintedPoint(p, p.zone.id, p.spot.id, i, pt, line, point);
    var a: Rndf.Args :| a.point == point && Step(p, line) == Handle(p, Other, a);
    SpotPointAct(p, a, point);
  }

  lemma EndSpotAct(p: Parser, a: Rndf.Args)
    requires p.mode == SpotMode && Reading(p)
    ensures Handle(p, EndSpot, a) ==
      if SpotValid(p.spot)
      then To(p, ZoneMode).(zone := p.zone.(spots := p.zone.spots + [p.spot]), spot := NO_SPOT)
      else Fail(p)
  {}

  lemma EndSpotStep(p: Parser)
    requires Reading(p) && p.mode == SpotMode
    ensures Step(p, "end_spot") ==
      if SpotValid(p.spot)
      then To(p, ZoneMode).(zone := p.zone.(spots := p.zone.spots + [p.spot]), spot := NO_SPOT)
      else Fail(p)
  {
    EndSpotWord();
    KeyStep(p, "end_spot", EndSpot);
    var a: Rndf.Args :| Step(p, "end_spot") == Handle(p, EndSpot, a);
    EndSpotAct(p, a);
  }

  lemma EndZoneAct(p: Parser, a: Rndf.Args)
    requires p.mode == ZoneMode && Reading(p)
    ensures Handle(p, EndZone, a) ==
      if ZoneValid(p.zone)
      then To(p, GeneralMode).(file := p.file.(zones := p.file.zones + [p.zone]), zone := NO_ZONE)
      else Fail(p)
  {}

  lemma EndZoneStep(p: Parser)
    requires Reading(p) && p.mode == ZoneMode
    ensures Step(p, "end_zone") ==
      if ZoneValid(p.zone)
      then To(p, GeneralMode).(file := p.file.(zones := p.file.zones + [p.zone]), zone := NO_ZONE)
      else Fail(p)
  {
    EndZoneWord();
    KeyStep(p, "end_zone", EndZone);
    var a: Rndf.Args :| Step(p, "end_zone") == Handle(p, EndZone, a);
    EndZoneAct(p, a);
  }

  // ---------------------------------------------------------------- runs

  lemma RunOne(p: Parser, a: string)
    ensures Run(p, [a]) == Step(p, a)
  {
    RunCons(p, [a]);
  }

  lemma RunMore(p: Parser, lines: seq<string>, a: string)
    ensures Run(p, lines + [a]) == Step(Run(p, lines), a)
  {
    RunAppend(p, lines, [a]);
    RunOne(Run(p, lines), a);
  }

  lemma RunTwo(p: Parser, a: string, b: string)
    ensures Run(p, [a, b]) == Step(Step(p, a), b)
  {
    RunOne(p, a);
    RunMore(p, [a], b);
    assert [a] + [b] == [a, b];
  }

  lemma RunBoth(p: Parser, a: seq<string>, b: seq<string>, q: Parser, r: Parser)
    requires Run(p, a) == q && Run(q, b) == r
    ensures Run(p, a + b) == r
  {
    RunAppend(p, a, b);
  }

  lemma RunStuck(p: Parser, a: seq<string>, b: seq<string>)
    requires !Run(p, a).valid
    ensures !Run(p, a + b).valid
  {
    RunAppend(p, a, b);
    Stuck(Run(p, a), b);
  }

  /** The lines lead from p to q if they are good, and make the parse fail otherwise. */
  ghost predicate Goes(p: Parser, lines: seq<string>, good: bool, q: Parser) {
    if good then Run(p, lines) == q else !Run(p, lines).valid
  }

  lemma GoesOn(p: Parser, a: seq<string>, b: seq<string>, q: Parser, r: Parser, goodA: bool, goodB: bool)
    requires Goes(p, a, goodA, q) && Goes(q, b, goodB, r)
    ensures Goes(p, a + b, goodA && goodB, r)
  {
    if goodA { RunAppend(p, a, b); } else { RunStuck(p, a, b); }
  }

  ghost predicate AllGood(good: seq<bool>) { forall i :: 0 <= i < |good| ==> good[i] }

  ghost predicate Leads(parts: seq<seq<string>>, good: seq<bool>, states: seq<Parser>) {
    && |good| == |parts| && |states| == |parts| + 1
    && forall i: nat :: i < |parts| ==> Goes(states[i], parts[i], good[i], states[i + 1])
  }

  lemma LeadsBefore(parts: seq<seq<string>>, good: seq<bool>, states: seq<Parser>, n: nat)
    requires Leads(parts, good, states) && |parts| == n + 1
    ensures Leads(parts[..n], good[..n], states[..n + 1])
    ensures Goes(states[n], parts[n], good[n], states[n + 1])
    ensures AllGood(good) <==> AllGood(good[..n]) && good[n]
  {
    var g := good[..n];
    if AllGood(g) && good[n] {
      forall i | 0 <= i < |good| ensures good[i] {
        if i < n { assert g[i]; }
      }
    }
    forall i: nat | i < n ensures Goes(states[..n + 1][i], parts[..n][i], g[i], states[..n + 1][i + 1]) {
      assert Goes(states[i], parts[i], good[i], states[i + 1]);
    }
  }

  /** Parts that lead from state to state lead through all of them, if all are good. */
  lemma {:induction false} RunParts(parts: seq<seq<string>>, good: seq<bool>, states: seq<Parser>)
    requires Leads(parts, good, states)
    ensures Goes(states[0], Concat(parts), AllGood(good), states[|parts|])
    decreases |parts|
  {
    if parts == [] {
      GoesNowhere(states[0]);
    } else {
      var n := |parts| - 1;
      LeadsBefore(parts, good, states, n);
      RunParts(parts[..n], good[..n], states[..n + 1]);
      ConcatLast(parts);
      GoesOn(states[0], Concat(parts[..n]), parts[n], states[n], states[n + 1], AllGood(good[..n]), good[n]);
    }
  }

  lemma GoesNowhere(p: Parser)
    ensures Goes(p, [], true, p)
  {}

  lemma ConcatLast(parts: seq<seq<string>>)
    requires parts != []
    ensures Concat(parts) == Concat(parts[..|parts| - 1]) + parts[|parts| - 1]
  {}

  lemma RunFour(p: Parser, a: string, b: string, c: string, d: string)
    ensures Run(p, [a, b, c, d]) == Step(Step(Step(Step(p, a), b), c), d)
  {
    RunOne(p, a);
    RunMore(p, [a], b);
    RunMore(p, [a, b], c);
    RunMore(p, [a, b, c], d);
    assert [a] + [b] == [a, b] && [a, b] + [c] == [a, b, c] && [a, b, c] + [d] == [a, b, c, d];
  }

  lemma WaypointsGrow(points: seq<Point>)
    requires points != []
    ensures var n := |points| - 1;
      Waypoints(points) == Waypoints(points[..n]) + [Waypoint(n + 1, points[n].lat, points[n].lng)]
  {
  }

  lemma {:induction false} LanePointsRun(p: Parser, x: nat, points: seq<Point>)
    requires Reading(p) && p.mode == LaneMode && p.segment.id == x && p.lane.id == 1 && p.lane.waypoints == []
    requires Recorded(points)
    ensures Run(p, PointLines(x, 1, points)) == p.(lane := p.lane.(waypoints := Waypoints(points)))
    decreases |points|
  {
    if points != [] {
      var n := |points| - 1;
      LanePointsRun(p, x, points[..n]);
      var q := p.(lane := p.lane.(waypoints := Waypoints(points[..n])));
      RunMore(p, PointLines(x, 1, points[..n]), PointLine(x, 1, n + 1, points[n]));
      LanePointStep(q, n + 1, points[n]);
      WaypointsGrow(points);
    }
  }

  lemma {:induction false} PerimeterPointsRun(p: Parser, x: nat, points: seq<Point>)
    requires Reading(p) && p.mode == PerimeterMode && p.zone.id == x && p.perimeter.points == []
    requires Recorded(points)
    ensures Run(p, PointLines(x, 0, points)) == p.(perimeter := p.perimeter.(points := Waypoints(points)))
    decreases |points|
  {
    if points != [] {
      var n := |points| - 1;
      PerimeterPointsRun(p, x, points[..n]);
      var q := p.(perimeter := p.perimeter.(points := Waypoints(points[..n])));
      RunMore(p, PointLines(x, 0, points[..n]), PointLine(x, 0, n + 1, points[n]));
      PerimeterPointStep(q, n + 1, points[n]);
      WaypointsGrow(points);
    }
  }

  /** Between segments and zones nothing is half read. */
  ghost predicate Between(p: Parser) {
    && p.valid && p.mode == GeneralMode
    && p.segment == NO_SEGMENT && p.lane == NO_LANE && p.zone == NO_ZONE && p.perimeter == NO_PERIMETER && p.spot == NO_SPOT
  }

  lemma LaneHeaderRun(p: Parser, x: nat, n: nat)
    requires Between(p) && x > 0
    ensures Run(p, [Line("segment", Print(x)), Line("num_lanes", Print(1)), ElementLine("lane", x, 1), Line("num_waypoints", Print(n))])
      == var q := p.(previous := SegmentMode, mode := LaneMode,
                     segment := NO_SEGMENT.(id := x, count := 1), lane := NO_LANE.(id := 1));
         if n > 0 then q.(lane := q.lane.(count := n)) else Fail(q)
  {
    RunFour(p, Line("segment", Print(x)), Line("num_lanes", Print(1)), ElementLine("lane", x, 1), Line("num_waypoints", Print(n)));
    SegmentStep(p, x);
    var p1 := Step(p, Line("segment", Print(x)));
    LaneCountStep(p1, 1);
    var p2 := p1.(segment := p1.segment.(count := 1));
    LaneStep(p2, x, 1);
    WaypointCountStep(To(p2, LaneMode).(lane := NO_LANE.(id := 1)), n);
  }

  function SegmentAdded(p: Parser, s: Segment): Parser {
    p.(previous := SegmentMode, file := p.file.(segments := p.file.segments + [s]))
  }

  /** A lane's lines add its segment, or fail if it has no points. */
  lemma LaneRun(p: Parser, x: nat, lane: seq<Point>)
    requires Between(p) && x > 0 && Recorded(lane)
    ensures lane != [] ==> Run(p, LaneLines(x, lane)) == SegmentAdded(p, Segment(x, 1, "default", [LaneOf(lane)]))
    ensures lane == [] ==> !Run(p, LaneLines(x, lane)).valid
  {
    var header := [Line("segment", Print(x)), Line("num_lanes", Print(1)), ElementLine("lane", x, 1), Line("num_waypoints", Print(|lane|))];
    var points := PointLines(x, 1, lane);
    LaneHeaderRun(p, x, |lane|);
    var q := Run(p, header);
    RunAppend(p, header, points);
    RunAppend(p, header + points, ["end_lane", "end_segment"]);
    if lane == [] {
      Stuck(q, points);
      Stuck(q, ["end_lane", "end_segment"]);
    } else {
      LanePointsRun(q, x, lane);
      LaneCloses(q.(lane := LaneOf(lane)));
    }
  }

  lemma LaneCloses(p: Parser)
    requires Reading(p) && p.mode == LaneMode && LaneValid(p.lane)
    requires p.segment.lanes == [] && p.segment.count == 1 && p.segment.id > 0
    ensures Run(p, ["end_lane", "end_segment"]) ==
      p.(previous := SegmentMode, mode := GeneralMode, segment := NO_SEGMENT, lane := NO_LANE,
         file := p.file.(segments := p.file.segments + [p.segment.(lanes := [p.lane])]))
  {
    RunOne(p, "end_lane");
    RunMore(p, ["end_lane"], "end_segment");
    assert ["end_lane"] + ["end_segment"] == ["end_lane", "end_segment"];
    EndLaneStep(p);
    assert [] + [p.lane] == [p.lane];
    EndSegmentStep(Step(p, "end_lane"));
  }

  function Previous(read: bool, mode: Mode, before: Mode): Mode { if read then mode else before }

  ghost predicate NonEmpty(lanes: seq<seq<Point>>) { forall i :: 0 <= i < |lanes| ==> lanes[i] != [] }

  lemma SegmentsGrow(lanes: seq<seq<Point>>)
    requires lanes != []
    ensures var n := |lanes| - 1;
      Segments(lanes) == Segments(lanes[..n]) + [Segment(n + 1, 1, "default", [LaneOf(lanes[n])])]
  {
  }

  function LanesRead(p: Parser, lanes: seq<seq<Point>>): Parser {
    p.(previous := Previous(lanes != [], SegmentMode, p.previous), file := p.file.(segments := Segments(lanes)))
  }

  lemma LanesReadGrows(p: Parser, lanes: seq<seq<Point>>, i: nat)
    requires i < |lanes|
    ensures LanesRead(p, lanes[..i + 1]) ==
      SegmentAdded(LanesRead(p, lanes[..i]), Segment(i + 1, 1, "default", [LaneOf(lanes[i])]))
  {
    assert lanes[..i + 1][..i] == lanes[..i];
    SegmentsGrow(lanes[..i + 1]);
  }

  lemma LaneGoes(p: Parser, lanes: seq<seq<Point>>, i: nat)
    requires Between(p) && i < |lanes| && Recorded(lanes[i])
    ensures Goes(LanesRead(p, lanes[..i]), LaneLines(i + 1, lanes[i]), lanes[i] != [], LanesRead(p, lanes[..i + 1]))
  {
    LaneRun(LanesRead(p, lanes[..i]), i + 1, lanes[i]);
    LanesReadGrows(p, lanes, i);
  }

  ghost function LanesGood(lanes: seq<seq<Point>>): (r: seq<bool>)
    ensures |r| == |lanes|
  {
    seq(|lanes|, i requires 0 <= i < |lanes| => lanes[i] != [])
  }

  lemma LanesGoodMeans(lanes: seq<seq<Point>>)
    ensures AllGood(LanesGood(lanes)) <==> NonEmpty(lanes)
  {
    var r := LanesGood(lanes);
    if AllGood(r) {
      forall i | 0 <= i < |lanes| ensures lanes[i] != [] { assert r[i]; }
    }
  }

  ghost function LaneStates(p: Parser, lanes: seq<seq<Point>>): (r: seq<Parser>)
    ensures |r| == |lanes| + 1
  {
    seq(|lanes| + 1, i requires 0 <= i <= |lanes| => LanesRead(p, lanes[..i]))
  }

  lemma LanesLead(p: Parser, lanes: seq<seq<Point>>)
    requires Between(p) && forall i :: 0 <= i < |lanes| ==> Recorded(lanes[i])
    ensures Leads(LaneParts(lanes), LanesGood(lanes), LaneStates(p, lanes))
  {
    forall i: nat | i < |lanes|
      ensures Goes(LaneStates(p, lanes)[i], LaneParts(lanes)[i], LanesGood(lanes)[i], LaneStates(p, lanes)[i + 1])
    {
      LaneGoes(p, lanes, i);
    }
  }

  lemma LanesRun(p: Parser, lanes: seq<seq<Point>>)
    requires Between(p) && p.file.segments == [] && forall i :: 0 <= i < |lanes| ==> Recorded(lanes[i])
    ensures Goes(p, AllLaneLines(lanes), NonEmpty(lanes), LanesRead(p, lanes))
  {
    LanesLead(p, lanes);
    LaneEnds(p, lanes);
    LanesGoodMeans(lanes);
    RunParts(LaneParts(lanes), LanesGood(lanes), LaneStates(p, lanes));
  }

  lemma LaneEnds(p: Parser, lanes: seq<seq<Point>>)
    requires p.file.segments == []
    ensures LaneStates(p, lanes)[0] == p && LaneStates(p, lanes)[|lanes|] == LanesRead(p, lanes)
  {
    assert lanes[..0] == [] && Segments([]) == [] && lanes[..|lanes|] == lanes;
  }

  // ---------------------------------------------------------------- zones

  function ZoneEntered(p: Parser, x: int, spots: int, n: int): Parser {
    var q := p.(previous := ZoneMode, mode := PerimeterMode,
                zone := NO_ZONE.(id := x, count := spots), perimeter := NO_PERIMETER.(id := 0));
    if n > 0 then q.(perimeter := q.perimeter.(count := n)) else Fail(q)
  }

  lemma ZoneHeaderRun(p: Parser, x: nat, spots: nat, n: nat)
    requires Between(p) && x > 0
    ensures Run(p, ZoneHeader(x, spots, n)) == ZoneEntered(p, x, spots, n)
  {
    RunFour(p, Line("zone", Print(x)), Line("num_spots", Print(spots)), ElementLine("perimeter", x, 0),
            Line("num_perimeterpoints", Print(n)));
    ZoneStep(p, x);
    var p1 := Step(p, Line("zone", Print(x)));
    SpotCountStep(p1, spots);
    var p2 := p1.(zone := p1.zone.(count := spots));
    PerimeterStep(p2, x, 0);
    PointCountStep(To(p2, PerimeterMode).(perimeter := NO_PERIMETER.(id := 0)), n);
  }

  /** The parser after some spot points: inside a spot when their number is odd. */
  function SpotsRead(p: Parser, points: seq<Point>): Parser {
    var n := |points|;
    if n % 2 == 0 then
      p.(previous := Previous(n > 0, SpotMode, p.previous), zone := p.zone.(spots := Spots(points)))
    else
      p.(previous := ZoneMode, mode := SpotMode, zone := p.zone.(spots := Spots(points[..n - 1])),
         spot := Spot(n / 2 + 1, 0, NO_CHECKPOINT, Waypoints(points[n - 1..])))
  }

  lemma SpotsGrow(points: seq<Point>)
    requires |points| % 2 == 0 && points != []
    ensures var n := |points|;
      Spots(points) == Spots(points[..n - 2]) + [Spot(n / 2, 0, NO_CHECKPOINT, Waypoints(points[n - 2..]))]
  {
    var n := |points|;
    var rest := points[..n - 2];
    forall k: nat | k < n / 2 - 1 ensures SpotOf(rest, k) == SpotOf(points, k) {
      assert points[2 * k..2 * k + 2] == rest[2 * k..2 * k + 2];
    }
    assert points[n - 2..n] == points[n - 2..];
    assert SpotOf(points, n / 2 - 1) == Spot(n / 2, 0, NO_CHECKPOINT, Waypoints(points[n - 2..]));
    assert Spots(points)[..n / 2 - 1] == Spots(rest);
  }

  lemma LoneSpot(points: seq<Point>)
    requires |points| % 2 == 1
    ensures var n := |points|;
      Spots(points) == Spots(points[..n - 1]) + [Spot(n / 2 + 1, 0, NO_CHECKPOINT, Waypoints(points[n - 1..]))]
  {
    var n := |points|;
    var rest := points[..n - 1];
    forall k: nat | k < n / 2 ensures SpotOf(rest, k) == SpotOf(points, k) {
      assert points[2 * k..2 * k + 2] == rest[2 * k..2 * k + 2];
    }
    assert points[n - 1..n] == points[n - 1..];
    assert SpotOf(points, n / 2) == Spot(n / 2 + 1, 0, NO_CHECKPOINT, Waypoints(points[n - 1..]));
    assert Spots(points)[..n / 2] == Spots(rest);
  }

  /** A spot that has just been opened and holds its first point. */
  function Opened(p: Parser, y: int, pt: Point): Parser {
    To(p, SpotMode).(spot := NO_SPOT.(id := y, waypoints := [Waypoint(1, pt.lat, pt.lng)]))
  }

  lemma SpotOpens(p: Parser, x: nat, y: nat, pt: Point)
    requires Reading(p) && p.zone.id == x && p.spot == NO_SPOT && y > 0
    requires Coordinate(pt.lat) && Coordinate(pt.lng)
    ensures Step(Step(p, ElementLine("spot", x, y)), PointLine(x, y, 1, pt)) == Opened(p, y, pt)
  {
    SpotStep(p, x, y);
    SpotPointStep(To(p, SpotMode).(spot := NO_SPOT.(id := y)), 1, pt);
    assert [] + [Waypoint(1, pt.lat, pt.lng)] == [Waypoint(1, pt.lat, pt.lng)];
  }

  /** A spot that has received its second point and is closed. */
  function Closed(p: Parser, pt: Point): Parser {
    To(p, ZoneMode).(
      zone := p.zone.(spots := p.zone.spots + [p.spot.(waypoints := p.spot.waypoints + [Waypoint(2, pt.lat, pt.lng)])]),
      spot := NO_SPOT)
  }

  lemma SpotCloses(p: Parser, x: nat, y: nat, pt: Point)
    requires Reading(p) && p.mode == SpotMode && p.zone.id == x && p.spot.id == y && SpotValid(p.spot)
    requires Coordinate(pt.lat) && Coordinate(pt.lng)
    ensures Step(Step(p, PointLine(x, y, 2, pt)), "end_spot") == Closed(p, pt)
  {
    SpotPointStep(p, 2, pt);
    EndSpotStep(p.(spot := p.spot.(waypoints := p.spot.waypoints + [Waypoint(2, pt.lat, pt.lng)])));
  }

  lemma OpenedIsRead(p: Parser, points: seq<Point>)
    requires p.mode == ZoneMode && p.spot == NO_SPOT && |points| % 2 == 1
    ensures var i := |points| - 1; Opened(SpotsRead(p, points[..i]), i / 2 + 1, points[i]) == SpotsRead(p, points)
  {
    var i := |points| - 1;
    assert Waypoints(points[i..]) == [Waypoint(1, points[i].lat, points[i].lng)];
  }

  lemma ClosedIsRead(p: Parser, points: seq<Point>)
    requires p.mode == ZoneMode && p.spot == NO_SPOT && |points| % 2 == 0 && points != []
    ensures var i := |points| - 1; Closed(SpotsRead(p, points[..i]), points[i]) == SpotsRead(p, points)
  {
    var i := |points| - 1;
    var pt := points[i];
    var first := points[..i][i - 1..];
    assert |first| == 1 && first[0] == points[i - 1];
    assert first == [points[i - 1]] && points[i - 1..] == [points[i - 1], pt];
    assert Waypoints(first) + [Waypoint(2, pt.lat, pt.lng)] == Waypoints(points[i - 1..]);
    assert points[..i][..i - 1] == points[..i - 1];
    SpotsGrow(points);
  }

  /** One more spot point, in the two alternating positions. */
  function PointRead(p: Parser, i: nat, pt: Point): Parser {
    if i % 2 == 0 then Opened(p, i / 2 + 1, pt) else Closed(p, pt)
  }

  lemma SpotLinesRun(p: Parser, x: nat, i: nat, pt: Point)
    requires Reading(p) && p.zone.id == x && Coordinate(pt.lat) && Coordinate(pt.lng)
    requires if i % 2 == 0 then p.spot == NO_SPOT else p.mode == SpotMode && p.spot.id == i / 2 + 1 && SpotValid(p.spot)
    ensures Run(p, SpotLines(x, i, pt)) == PointRead(p, i, pt)
  {
    var y := i / 2 + 1;
    if i % 2 == 0 {
      SpotOpens(p, x, y, pt);
      RunTwo(p, ElementLine("spot", x, y), PointLine(x, y, 1, pt));
    } else {
      SpotCloses(p, x, y, pt);
      RunTwo(p, PointLine(x, y, 2, pt), "end_spot");
    }
  }

  lemma PointReadGrows(p: Parser, points: seq<Point>)
    requires p.mode == ZoneMode && p.spot == NO_SPOT && points != []
    ensures var i := |points| - 1; PointRead(SpotsRead(p, points[..i]), i, points[i]) == SpotsRead(p, points)
  {
    if |points| % 2 == 1 { OpenedIsRead(p, points); } else { ClosedIsRead(p, points); }
  }

  lemma SpotPointLinesLast(x: int, points: seq<Point>)
    requires points != []
    ensures var i := |points| - 1;
      SpotPointLines(x, points) == SpotPointLines(x, points[..i]) + SpotLines(x, i, points[i])
  {}

  lemma NoSpotsRun(p: Parser)
    requires p.mode == ZoneMode && p.zone.spots == [] && p.spot == NO_SPOT
    ensures Run(p, []) == SpotsRead(p, [])
  {
    assert Spots([]) == [];
  }

  lemma NextSpotPoint(p: Parser, x: nat, points: seq<Point>, before: seq<string>, lines: seq<string>, all: seq<string>)
    requires Reading(p) && p.mode == ZoneMode && p.zone.id == x && p.zone.spots == [] && p.spot == NO_SPOT
    requires Recorded(points) && points != [] && lines == SpotLines(x, |points| - 1, points[|points| - 1])
    requires Run(p, before) == SpotsRead(p, points[..|points| - 1]) && all == before + lines
    ensures Run(p, all) == SpotsRead(p, points)
  {
    var i := |points| - 1;
    var q := SpotsRead(p, points[..i]);
    SpotLinesRun(q, x, i, points[i]);
    PointReadGrows(p, points);
    RunBoth(p, before, lines, q, SpotsRead(p, points));
  }

  lemma {:induction false} SpotsRun(p: Parser, x: nat, points: seq<Point>)
    requires Reading(p) && p.mode == ZoneMode && p.zone.id == x && p.zone.spots == [] && p.spot == NO_SPOT
    requires Recorded(points)
    ensures Run(p, SpotPointLines(x, points)) == SpotsRead(p, points)
    decreases |points|
  {
    if points == [] {
      NoSpotsRun(p);
    } else {
      var i := |points| - 1;
      SpotsRun(p, x, points[..i]);
      SpotPointLinesLast(x, points);
      NextSpotPoint(p, x, points, SpotPointLines(x, points[..i]), SpotLines(x, i, points[i]), SpotPointLines(x, points));
    }
  }

  lemma PerimeterRun(p: Parser, x: nat, points: seq<Point>)
    requires Reading(p) && p.mode == PerimeterMode && p.zone.id == x
    requires p.perimeter == Perimeter(0, |points|, [], []) && points != [] && Recorded(points)
    ensures Run(p, PointLines(x, 0, points) + ["end_perimeter"]) == PerimeterRead(p, points)
  {
    PerimeterPointsRun(p, x, points);
    RunMore(p, PointLines(x, 0, points), "end_perimeter");
    EndPerimeterStep(p.(perimeter := p.perimeter.(points := Waypoints(points))));
  }

  function PerimeterRead(p: Parser, points: seq<Point>): Parser {
    p.(previous := PerimeterMode, mode := ZoneMode,
       zone := p.zone.(perimeter := Perimeter(0, |points|, [], Waypoints(points))), perimeter := NO_PERIMETER)
  }

  function ZoneAdded(p: Parser, z: Zone): Parser {
    p.(previous := ZoneMode, mode := GeneralMode, zone := NO_ZONE, file := p.file.(zones := p.file.zones + [z]))
  }

  lemma FooterRun(p: Parser, spots: seq<Point>)
    requires Reading(p) && p.mode == ZoneMode && p.spot == NO_SPOT && p.zone.id > 0
    requires p.zone.count == (|spots| + 1) / 2
    ensures Run(SpotsRead(p, spots), ZoneFooter(|spots|)) == ZoneAdded(p, p.zone.(spots := Spots(spots)))
  {
    var q := SpotsRead(p, spots);
    if |spots| % 2 == 0 {
      RunOne(q, "end_zone");
      EndZoneStep(q);
    } else {
      LoneSpot(spots);
      RunTwo(q, "end_spot", "end_zone");
      EndSpotStep(q);
      EndZoneStep(To(q, ZoneMode).(zone := p.zone.(spots := Spots(spots)), spot := NO_SPOT));
    }
  }

  /** A zone's lines add it, or fail if its perimeter has no points. */
  lemma AreaRun(p: Parser, x: nat, area: Area)
    requires Between(p) && x > 0 && Recorded(area.perimeter) && Recorded(area.spots)
    ensures area.perimeter != [] ==> Run(p, AreaLines(x, area)) == ZoneAdded(p, ZoneOf(x, area))
    ensures area.perimeter == [] ==> !Run(p, AreaLines(x, area)).valid
  {
    var header := ZoneHeader(x, (|area.spots| + 1) / 2, |area.perimeter|);
    var points := PointLines(x, 0, area.perimeter) + ["end_perimeter"];
    var spots, footer := SpotPointLines(x, area.spots), ZoneFooter(|area.spots|);
    ZoneHeaderRun(p, x, (|area.spots| + 1) / 2, |area.perimeter|);
    if area.perimeter == [] {
      RunStuck(p, header, points);
      RunStuck(p, header + points, spots);
      RunStuck(p, header + points + spots, footer);
    } else {
      BodyRun(p, x, area, header, points, spots, footer);
    }
  }

  lemma BodyRun(p: Parser, x: nat, area: Area, header: seq<string>, points: seq<string>, spots: seq<string>, footer: seq<string>)
    requires Between(p) && x > 0 && Recorded(area.perimeter) && Recorded(area.spots) && area.perimeter != []
    requires Run(p, header) == ZoneEntered(p, x, (|area.spots| + 1) / 2, |area.perimeter|)
    requires points == PointLines(x, 0, area.perimeter) + ["end_perimeter"]
    requires spots == SpotPointLines(x, area.spots) && footer == ZoneFooter(|area.spots|)
    ensures Run(p, header + points + spots + footer) == ZoneAdded(p, ZoneOf(x, area))
  {
    var q := Run(p, header);
    var r := PerimeterRead(q, area.perimeter);
    PerimeterRun(q, x, area.perimeter);
    RunBoth(p, header, points, q, r);
    SpotsRun(r, x, area.spots);
    RunBoth(p, header + points, spots, r, SpotsRead(r, area.spots));
    FooterRun(r, area.spots);
    var done := ZoneAdded(p, ZoneOf(x, area));
    assert ZoneAdded(r, r.zone.(spots := Spots(area.spots))) == done;
    RunBoth(p, header + points + spots, footer, SpotsRead(r, area.spots), done);
  }

  ghost predicate Enclosed(areas: seq<Area>) { forall i :: 0 <= i < |areas| ==> areas[i].perimeter != [] }

  function AreasRead(p: Parser, first: int, areas: seq<Area>): Parser {
    p.(previous := Previous(areas != [], ZoneMode, p.previous), file := p.file.(zones := Zones(first, areas)))
  }

  ghost predicate AreasRecorded(areas: seq<Area>) {
    forall i :: 0 <= i < |areas| ==> Recorded(areas[i].perimeter) && Recorded(areas[i].spots)
  }

  lemma AreasReadGrows(p: Parser, first: int, areas: seq<Area>, i: nat)
    requires i < |areas| && Between(p)
    ensures AreasRead(p, first, areas[..i + 1]) == ZoneAdded(AreasRead(p, first, areas[..i]), ZoneOf(i + first, areas[i]))
  {
    assert Zones(first, areas[..i + 1]) == Zones(first, areas[..i]) + [ZoneOf(i + first, areas[i])];
  }

  lemma AreaGoesAt(p: Parser, x: nat, area: Area, q: Parser)
    requires Between(p) && x > 0 && Recorded(area.perimeter) && Recorded(area.spots) && q == ZoneAdded(p, ZoneOf(x, area))
    ensures Goes(p, AreaLines(x, area), area.perimeter != [], q)
  {
    AreaRun(p, x, area);
  }

  lemma AreaGoes(p: Parser, first: nat, areas: seq<Area>, i: nat)
    requires Between(p) && i < |areas| && first > 0 && AreasRecorded(areas)
    ensures Goes(AreasRead(p, first, areas[..i]), AreaLines(i + first, areas[i]), areas[i].perimeter != [],
                 AreasRead(p, first, areas[..i + 1]))
  {
    AreasReadGrows(p, first, areas, i);
    AreaGoesAt(AreasRead(p, first, areas[..i]), i + first, areas[i], AreasRead(p, first, areas[..i + 1]));
  }

  ghost function AreasGood(areas: seq<Area>): (r: seq<bool>)
    ensures |r| == |areas|
  {
    seq(|areas|, i requires 0 <= i < |areas| => areas[i].perimeter != [])
  }

  lemma AreasGoodMeans(areas: seq<Area>)
    ensures AllGood(AreasGood(areas)) <==> Enclosed(areas)
  {
    var r := AreasGood(areas);
    if AllGood(r) {
      forall i | 0 <= i < |areas| ensures areas[i].perimeter != [] { assert r[i]; }
    }
  }

  ghost function AreaStates(p: Parser, first: int, areas: seq<Area>): (r: seq<Parser>)
    ensures |r| == |areas| + 1
  {
    seq(|areas| + 1, i requires 0 <= i <= |areas| => AreasRead(p, first, areas[..i]))
  }

  lemma AreaStateAt(p: Parser, first: nat, areas: seq<Area>, i: nat)
    requires i <= |areas|
    ensures AreaStates(p, first, areas)[i] == AreasRead(p, first, areas[..i])
  {
  }

  lemma AreaAt(first: nat, areas: seq<Area>, i: nat)
    requires i < |areas|
    ensures AreaParts(first, areas)[i] == AreaLines(i + first, areas[i])
    ensures AreasGood(areas)[i] == (areas[i].perimeter != [])
  {
  }

  lemma AreaLeads(p: Parser, first: nat, areas: seq<Area>, i: nat)
    requires Between(p) && i < |areas| && first > 0 && AreasRecorded(areas)
    ensures Goes(AreaStates(p, first, areas)[i], AreaParts(first, areas)[i], AreasGood(areas)[i],
                 AreaStates(p, first, areas)[i + 1])
  {
    AreaStateAt(p, first, areas, i);
    AreaStateAt(p, first, areas, i + 1);
    AreaAt(first, areas, i);
    AreaGoes(p, first, areas, i);
  }

  lemma AreasLead(p: Parser, first: nat, areas: seq<Area>)
    requires Between(p) && first > 0 && AreasRecorded(areas)
    ensures Leads(AreaParts(first, areas), AreasGood(areas), AreaStates(p, first, areas))
  {
    var parts, good, states := AreaParts(first, areas), AreasGood(areas), AreaStates(p, first, areas);
    forall i: nat | i < |areas| ensures Goes(states[i], parts[i], good[i], states[i + 1]) {
      AreaLeads(p, first, areas, i);
    }
  }

  lemma AreaEnds(p: Parser, first: int, areas: seq<Area>)
    requires p.file.zones == []
    ensures AreaStates(p, first, areas)[0] == p && AreaStates(p, first, areas)[|areas|] == AreasRead(p, first, areas)
  {
    assert areas[..0] == [] && Zones(first, []) == [] && areas[..|areas|] == areas;
  }

  lemma AreasRun(p: Parser, first: nat, areas: seq<Area>)
    requires Between(p) && p.file.zones == [] && first > 0 && AreasRecorded(areas)
    ensures Goes(p, AllAreaLines(first, areas), Enclosed(areas), AreasRead(p, first, areas))
  {
    AreasLead(p, first, areas);
    AreaEnds(p, first, areas);
    AreasGoodMeans(areas);
    RunParts(AreaParts(first, areas), AreasGood(areas), AreaStates(p, first, areas));
  }

  // ---------------------------------------------------------------- the round trip

  function FileHeader(name: string, lanes: nat, areas: nat): seq<string> {
    [Line("RNDF_name", name), Line("num_segments", Print(lanes)), Line("num_zones", Print(areas))]
  }

  function HeaderRead(name: string, lanes: nat, areas: nat): Parser {
    START.(mode := GeneralMode, file := NO_FILE.(name := FirstWord(name), segmentCount := lanes, zoneCount := areas))
  }

  lemma HeaderRun(name: string, lanes: nat, areas: nat)
    ensures var q := Run(START, FileHeader(name, lanes, areas));
      if lanes > 0 then q == HeaderRead(name, lanes, areas) else !q.valid
  {
    var a, b, c := Line("RNDF_name", name), Line("num_segments", Print(lanes)), Line("num_zones", Print(areas));
    RunTwo(START, a, b);
    RunMore(START, [a, b], c);
    assert [a, b] + [c] == [a, b, c];
    NameStep(START, name);
    var p1 := Step(START, a);
    SegmentCountStep(p1, lanes);
    var p2 := Step(p1, b);
    if lanes > 0 { ZoneCountStep(p2, areas); } else { assert Step(p2, c) == p2; }
  }

  /** The points that the parser accepts: some lane, no empty lane, and a perimeter around every zone. */
  ghost predicate Acceptable(lanes: seq<seq<Point>>, areas: seq<Area>) {
    lanes != [] && NonEmpty(lanes) && Enclosed(areas)
  }

  lemma BodyRead(p: Parser, lanes: seq<seq<Point>>, areas: seq<Area>)
    requires Between(p) && p.file.segments == [] && p.file.zones == [] && AllRecorded(lanes, areas)
    ensures Goes(p, AllLaneLines(lanes) + AllAreaLines(|lanes| + 1, areas), NonEmpty(lanes) && Enclosed(areas),
                 AreasRead(LanesRead(p, lanes), |lanes| + 1, areas))
  {
    LanesRun(p, lanes);
    var q := LanesRead(p, lanes);
    AreasRun(q, |lanes| + 1, areas);
    GoesOn(p, AllLaneLines(lanes), AllAreaLines(|lanes| + 1, areas), q, AreasRead(q, |lanes| + 1, areas),
           NonEmpty(lanes), Enclosed(areas));
  }

  lemma WrittenParts(name: string, lanes: seq<seq<Point>>, areas: seq<Area>)
    ensures Written(name, lanes, areas) ==
      FileHeader(name, |lanes|, |areas|) + (AllLaneLines(lanes) + AllAreaLines(|lanes| + 1, areas)) + ["end_file"]
  {
  }

  /** What follows the header, and the end of the file. */
  lemma RestRun(name: string, lanes: seq<seq<Point>>, areas: seq<Area>, header: seq<string>, body: seq<string>)
    requires lanes != [] && AllRecorded(lanes, areas) && body == AllLaneLines(lanes) + AllAreaLines(|lanes| + 1, areas)
    requires Run(START, header) == HeaderRead(name, |lanes|, |areas|)
    ensures Parsed(header + body + ["end_file"]) ==
      if Acceptable(lanes, areas) then Some(FileOf(name, lanes, areas)) else None
  {
    var p := HeaderRead(name, |lanes|, |areas|);
    BodyRead(p, lanes, areas);
    RunBoth(START, header, body, p, Run(p, body));
    if Acceptable(lanes, areas) {
      RunMore(START, header + body, "end_file");
      EndFileStep(AreasRead(LanesRead(p, lanes), |lanes| + 1, areas));
    } else {
      RunStuck(START, header + body, ["end_file"]);
    }
  }

  /**
   * Round trip: reading what was written rebuilds exactly the recorded lanes, perimeters and spot
   * pairs, in order, whenever the points are acceptable; otherwise the file is rejected.
   */
  lemma RoundTrip(name: string, lanes: seq<seq<Point>>, areas: seq<Area>)
    requires AllRecorded(lanes, areas)
    ensures Parsed(Written(name, lanes, areas)) ==
      if Acceptable(lanes, areas) then Some(FileOf(name, lanes, areas)) else None
  {
    var header, body := FileHeader(name, |lanes|, |areas|), AllLaneLines(lanes) + AllAreaLines(|lanes| + 1, areas);
    WrittenParts(name, lanes, areas);
    HeaderRun(name, |lanes|, |areas|);
    if lanes == [] {
      RunStuck(START, header, body);
      RunStuck(START, header + body, ["end_file"]);
    } else {
      RestRun(name, lanes, areas, header, body);
    }
  }

  /** The end line is not needed: without it the same file is read. */
  lemma EndLineIsOptional(name: string, lanes: seq<seq<Point>>, areas: seq<Area>)
    requires AllRecorded(lanes, areas) && Acceptable(lanes, areas)
    ensures var lines := Written(name, lanes, areas);
      lines[|lines| - 1] == "end_file" && Parsed(lines[..|lines| - 1]) == Parsed(lines)
  {
    var header, body := FileHeader(name, |lanes|, |areas|), AllLaneLines(lanes) + AllAreaLines(|lanes| + 1, areas);
    WrittenParts(name, lanes, areas);
    HeaderRun(name, |lanes|, |areas|);
    RestRun(name, lanes, areas, header, body);
    WithoutEnd(name, lanes, areas, header, body);
    var lines := Written(name, lanes, areas);
    assert lines[..|lines| - 1] == header + body;
  }

  lemma WithoutEnd(name: string, lanes: seq<seq<Point>>, areas: seq<Area>, header: seq<string>, body: seq<string>)
    requires AllRecorded(lanes, areas) && Acceptable(lanes, areas)
    requires body == AllLaneLines(lanes) + AllAreaLines(|lanes| + 1, areas)
    requires Run(START, header) == HeaderRead(name, |lanes|, |areas|)
    ensures Parsed(header + body) == Some(FileOf(name, lanes, areas))
  {
    var p := HeaderRead(name, |lanes|, |areas|);
    BodyRead(p, lanes, areas);
    RunBoth(START, header, body, p, Run(p, body));
  }

  /** No two recordings are read back as the same file. */
  lemma NothingLost(name: string, lanes: seq<seq<Point>>, areas: seq<Area>, lanes': seq<seq<Point>>, areas': seq<Area>)
    requires AllRecorded(lanes, areas) && AllRecorded(lanes', areas')
    requires Acceptable(lanes, areas) && Parsed(Written(name, lanes, areas)) == Parsed(Written(name, lanes', areas'))
    ensures lanes == lanes' && areas == areas'
  {
    RoundTrip(name, lanes, areas);
    RoundTrip(name, lanes', areas');
    SameFiles(name, lanes, areas, lanes', areas');
  }

  lemma SameFiles(name: string, lanes: seq<seq<Point>>, areas: seq<Area>, lanes': seq<seq<Point>>, areas': seq<Area>)
    requires FileOf(name, lanes, areas) == FileOf(name, lanes', areas')
    ensures lanes == lanes' && areas == areas'
  {
    SameLanes(lanes, lanes');
    SameAreas(|lanes| + 1, areas, areas');
  }

  lemma SameLanes(a: seq<seq<Point>>, b: seq<seq<Point>>)
    requires Segments(a) == Segments(b)
    ensures a == b
  {
    assert |Segments(a)| == |Segments(b)|;
    forall i | 0 <= i < |a| ensures a[i] == b[i] {
      assert Segments(a)[i].lanes[0] == Segments(b)[i].lanes[0];
      SamePoints(a[i], b[i]);
    }
  }

  lemma SameAreas(first: int, a: seq<Area>, b: seq<Area>)
    requires Zones(first, a) == Zones(first, b)
    ensures a == b
  {
    assert |Zones(first, a)| == |Zones(first, b)|;
    forall i | 0 <= i < |a| ensures a[i] == b[i] {
      assert Zones(first, a)[i] == Zones(first, b)[i];
      SamePoints(a[i].perimeter, b[i].perimeter);
      SameSpots(a[i].spots, b[i].spots);
    }
  }

  lemma SamePoints(a: seq<Point>, b: seq<Point>)
    requires Waypoints(a) == Waypoints(b)
    ensures a == b
  {
    assert |Waypoints(a)| == |Waypoints(b)|;
    forall i | 0 <= i < |a| ensures a[i] == b[i] {
      assert Waypoints(a)[i] == Waypoints(b)[i];
    }
  }

  lemma SameSpots(a: seq<Point>, b: seq<Point>)
    requires Spots(a) == Spots(b)
    ensures a == b
  {
    assert |Spots(a)| == |Spots(b)|;
    var n := |Spots(a)|;
    forall k: nat | k < n ensures a[2 * k..Least(2 * k + 2, |a|)] == b[2 * k..Least(2 * k + 2, |b|)] {
      assert Spots(a)[k] == Spots(b)[k];
      SamePoints(a[2 * k..Least(2 * k + 2, |a|)], b[2 * k..Least(2 * k + 2, |b|)]);
    }
    if n > 0 {
      assert a[2 * (n - 1)..Least(2 * n, |a|)] == b[2 * (n - 1)..Least(2 * n, |b|)];
    }
    assert |a| == |b|;
    forall i | 0 <= i < |a| ensures a[i] == b[i] {
      var k := i / 2;
      assert a[2 * k..Least(2 * k + 2, |a|)][i % 2] == b[2 * k..Least(2 * k + 2, |b|)][i % 2];
    }
  }
}
