/**
 * The whole RNDF format: every element that a file can describe, printed line by line, and read back
 * by the parser.
 */
module RndfFormat {
  import opened WayPoints
  import opened Scanning
  import opened Rndf
  import opened RndfWriter

  // ---------------------------------------------------------------- printing

  function CheckpointText(x: int, y: int, c: Checkpoint): string {
    Line("checkpoint", Dotted(x, y) + (Print(c.waypoint) + ("\t" + Print(c.id))))
  }

  function StopText(x: int, y: int, n: int): string { Line("stop", Dotted(x, y) + (Print(n) + "")) }

  function IdText(id: ElementId): string { Print(id.seg) + ("." + (Print(id.lane) + ("." + (Print(id.pt) + "")))) }

  function ExitText(x: int, y: int, e: Exit): string {
    Line("exit", Dotted(x, y) + (Print(e.start.pt) + ("\t" + IdText(e.end))))
  }

  function WaypointText(x: int, y: int, w: Waypoint): string { PointLine(x, y, w.id, Point(w.lat, w.lng)) }

  function MarkingWord(m: Marking): string {
    match m
    case Undefined => ""
    case DoubleYellow => "double_yellow"
    case SolidYellow => "solid_yellow"
    case SolidWhite => "solid_white"
    case BrokenWhite => "broken_white"
  }

  // A width or a marking that is not given has no line.

  function WidthText(key: string, n: int): seq<string> { if n == 0 then [] else [Line(key, Print(n))] }

  function MarkingText(key: string, m: Marking): seq<string> {
    if m == Undefined then [] else [Line(key, MarkingWord(m))]
  }

  /** The lines of one item after the other. */
  function Texts<T>(text: T -> seq<string>, items: seq<T>): seq<string> {
    if items == [] then [] else Texts(text, items[..|items| - 1]) + text(items[|items| - 1])
  }

  function CheckpointTexts(x: int, y: int, cs: seq<Checkpoint>): seq<string> { Texts(c => [CheckpointText(x, y, c)], cs) }
  function StopTexts(x: int, y: int, ns: seq<int>): seq<string> { Texts(n => [StopText(x, y, n)], ns) }
  function ExitTexts(x: int, y: int, es: seq<Exit>): seq<string> { Texts(e => [ExitText(x, y, e)], es) }
  function WaypointTexts(x: int, y: int, ws: seq<Waypoint>): seq<string> { Texts(w => [WaypointText(x, y, w)], ws) }

  function LaneText(x: int, l: Lane): seq<string> {
    LaneHead(x, l) + (LaneSides(l) + (LaneBody(x, l) + ["end_lane"]))
  }

  function LaneHead(x: int, l: Lane): seq<string> { [ElementLine("lane", x, l.id)] + [Line("num_waypoints", Print(l.count))] }

  function LaneSides(l: Lane): seq<string> {
    WidthText("lane_width", l.width) + (MarkingText("left_boundary", l.left) + MarkingText("right_boundary", l.right))
  }

  function LaneBody(x: int, l: Lane): seq<string> {
    CheckpointTexts(x, l.id, l.checkpoints)
    + (StopTexts(x, l.id, l.stops) + (ExitTexts(x, l.id, l.exits) + WaypointTexts(x, l.id, l.waypoints)))
  }

  function LaneTexts(x: int, lanes: seq<Lane>): seq<string> { Texts(l => LaneText(x, l), lanes) }

  function SegmentText(s: Segment): seq<string> {
    SegmentHead(s) + (LaneTexts(s.id, s.lanes) + ["end_segment"])
  }

  function SegmentHead(s: Segment): seq<string> {
    [Line("segment", Print(s.id))] + ([Line("num_lanes", Print(s.count))] + [Line("segment_name", s.name)])
  }

  /** A zone without a perimeter has no lines for it. */
  function PerimeterText(x: int, p: Perimeter): seq<string> {
    if p == NO_PERIMETER then []
    else PerimeterHead(x, p) + (ExitTexts(x, 0, p.exits) + (WaypointTexts(x, 0, p.points) + ["end_perimeter"]))
  }

  function PerimeterHead(x: int, p: Perimeter): seq<string> {
    [ElementLine("perimeter", x, p.id)] + [Line("num_perimeterpoints", Print(p.count))]
  }

  function SpotCheckpoint(x: int, y: int, c: Checkpoint): seq<string> {
    if c == NO_CHECKPOINT then [] else [CheckpointText(x, y, c)]
  }

  function SpotText(x: int, s: Spot): seq<string> {
    [ElementLine("spot", x, s.id)]
    + (WidthText("spot_width", s.width)
       + (SpotCheckpoint(x, s.id, s.checkpoint) + (WaypointTexts(x, s.id, s.waypoints) + ["end_spot"])))
  }

  function SpotTexts(x: int, spots: seq<Spot>): seq<string> { Texts(s => SpotText(x, s), spots) }

  function ZoneText(z: Zone): seq<string> {
    ZoneHead(z) + (PerimeterText(z.id, z.perimeter) + (SpotTexts(z.id, z.spots) + ["end_zone"]))
  }

  function ZoneHead(z: Zone): seq<string> {
    [Line("zone", Print(z.id))] + ([Line("num_spots", Print(z.count))] + [Line("zone_name", z.name)])
  }

  function SegmentTexts(segments: seq<Segment>): seq<string> { Texts(s => SegmentText(s), segments) }
  function ZoneTexts(zones: seq<Zone>): seq<string> { Texts(z => ZoneText(z), zones) }

  function FileHead(f: File): seq<string> {
    [Line("RNDF_name", f.name)] + ([Line("num_segments", Print(f.segmentCount))]
    + ([Line("num_zones", Print(f.zoneCount))] + ([Line("format_version", f.version)] + [Line("creation_date", f.date)])))
  }

  function FileText(f: File): seq<string> {
    FileHead(f) + (SegmentTexts(f.segments) + (ZoneTexts(f.zones) + ["end_file"]))
  }

  // ---------------------------------------------------------------- what can be written down

  /** Text that "%s" reads as a whole. */
  predicate Token(s: string) { forall i :: 0 <= i < |s| ==> !IsSpace(s[i]) }

  ghost predicate All<T(!new)>(good: T -> bool, items: seq<T>) { forall i :: 0 <= i < |items| ==> good(items[i]) }

  predicate WaypointWritable(w: Waypoint) { w.id >= 0 && Coordinate(w.lat) && Coordinate(w.lng) }
  predicate CheckpointWritable(c: Checkpoint) { c.waypoint >= 0 && c.id >= 0 }
  predicate IdWritable(id: ElementId) { id.seg >= 0 && id.lane >= 0 && id.pt >= 0 }
  /** An exit is written below the element that it leaves. */
  predicate ExitWritable(x: int, y: int, e: Exit) {
    e.start.seg == x && e.start.lane == y && e.start.pt >= 0 && IdWritable(e.end)
  }

  ghost predicate LaneWritable(x: int, l: Lane) {
    && l.id >= 0 && l.count >= 0 && l.width >= 0
    && (forall i :: 0 <= i < |l.checkpoints| ==> CheckpointWritable(l.checkpoints[i]))
    && (forall i :: 0 <= i < |l.stops| ==> l.stops[i] >= 0)
    && (forall i :: 0 <= i < |l.exits| ==> ExitWritable(x, l.id, l.exits[i]))
    && (forall i :: 0 <= i < |l.waypoints| ==> WaypointWritable(l.waypoints[i]))
  }

  ghost predicate SegmentWritable(s: Segment) {
    s.id >= 0 && s.count >= 0 && Token(s.name) && forall i :: 0 <= i < |s.lanes| ==> LaneWritable(s.id, s.lanes[i])
  }

  ghost predicate PerimeterWritable(x: int, p: Perimeter) {
    p != NO_PERIMETER ==>
      && p.id >= 0 && p.count >= 0
      && (forall i :: 0 <= i < |p.exits| ==> ExitWritable(x, 0, p.exits[i]))
      && (forall i :: 0 <= i < |p.points| ==> WaypointWritable(p.points[i]))
  }

  ghost predicate SpotWritable(s: Spot) {
    && s.id >= 0 && s.width >= 0 && (s.checkpoint == NO_CHECKPOINT || CheckpointWritable(s.checkpoint))
    && forall i :: 0 <= i < |s.waypoints| ==> WaypointWritable(s.waypoints[i])
  }

  ghost predicate ZoneWritable(z: Zone) {
    && z.id >= 0 && z.count >= 0 && Token(z.name) && PerimeterWritable(z.id, z.perimeter)
    && forall i :: 0 <= i < |z.spots| ==> SpotWritable(z.spots[i])
  }

  /**
   * What the format can express: numbers without a sign, names without spaces, plain coordinates,
   * and exits below the element that they leave.
   */
  ghost predicate Writable(f: File) {
    && f.segmentCount >= 0 && f.zoneCount >= 0 && Token(f.name) && Token(f.version) && Token(f.date)
    && (forall i :: 0 <= i < |f.segments| ==> SegmentWritable(f.segments[i]))
    && (forall i :: 0 <= i < |f.zones| ==> ZoneWritable(f.zones[i]))
  }

  // ---------------------------------------------------------------- what is accepted

  ghost predicate GoodLane(l: Lane) {
    && LaneValid(l) && All(GoodCheckpoint, l.checkpoints) && All(GoodStop, l.stops) && All(GoodExit, l.exits)
    && All(GoodWaypoint, l.waypoints)
  }

  ghost predicate GoodSegment(s: Segment) { SegmentValid(s) && All(GoodLane, s.lanes) }

  ghost predicate GoodPerimeter(p: Perimeter) {
    p != NO_PERIMETER ==> PerimeterValid(p) && All(GoodExit, p.exits) && All(GoodWaypoint, p.points)
  }

  ghost predicate GoodSpot(s: Spot) {
    SpotValid(s) && (s.checkpoint == NO_CHECKPOINT || GoodCheckpoint(s.checkpoint)) && All(GoodWaypoint, s.waypoints)
  }

  ghost predicate GoodZone(z: Zone) { ZoneValid(z) && GoodPerimeter(z.perimeter) && All(GoodSpot, z.spots) }

  /** Counts that are right, and numbers that count from 1, in every element. */
  ghost predicate Good(f: File) { FileValid(f) && All(GoodSegment, f.segments) && All(GoodZone, f.zones) }

  // ---------------------------------------------------------------- runs

  /** The lines lead from p to q, but for the previous mode, if they are good; otherwise they are rejected. */
  ghost predicate Reaches(p: Parser, lines: seq<string>, good: bool, q: Parser) {
    if good then Alike(Run(p, lines), q) else !Run(p, lines).valid
  }

  lemma ReachOne(p: Parser, line: string, good: bool, q: Parser)
    requires if good then Step(p, line) == q else !Step(p, line).valid
    ensures Reaches(p, [line], good, q)
  {
    RunOne(p, line);
  }

  lemma ReachNone(p: Parser)
    ensures Reaches(p, [], true, p)
  {
  }

  lemma AlikeChain(p: Parser, q: Parser, r: Parser)
    requires Alike(p, q) && Alike(q, r)
    ensures Alike(p, r)
  {
  }

  lemma ReachOn(p: Parser, a: seq<string>, b: seq<string>, q: Parser, r: Parser, goodA: bool, goodB: bool)
    requires Reaches(p, a, goodA, q) && (goodA ==> Reaches(q, b, goodB, r))
    ensures Reaches(p, a + b, goodA && goodB, r)
  {
    RunAppend(p, a, b);
    if goodA {
      RunAlike(Run(p, a), q, b);
      if goodB { AlikeChain(Run(p, a + b), Run(q, b), r); }
    } else {
      Stuck(Run(p, a), b);
    }
  }

  /** Item i of a list is added to those before it. */
  ghost predicate ItemReaches<T(!new)>(text: T -> seq<string>, good: T -> bool, state: seq<T> -> Parser, items: seq<T>, i: nat)
    requires i < |items|
  {
    Reaches(state(items[..i]), text(items[i]), good(items[i]), state(items[..i + 1]))
  }

  lemma {:induction false} ListReaches<T(!new)>(text: T -> seq<string>, good: T -> bool, state: seq<T> -> Parser, items: seq<T>)
    requires forall i: nat :: i < |items| ==> ItemReaches(text, good, state, items, i)
    ensures Reaches(state([]), Texts(text, items), All(good, items), state(items))
    decreases |items|
  {
    if items == [] {
      ReachNone(state([]));
    } else {
      var n := |items| - 1;
      var before := items[..n];
      forall i: nat | i < n ensures ItemReaches(text, good, state, before, i) {
        assert ItemReaches(text, good, state, items, i);
        assert before[..i] == items[..i] && before[..i + 1] == items[..i + 1];
      }
      ListReaches(text, good, state, before);
      assert ItemReaches(text, good, state, items, n) && items[..n + 1] == items;
      ReachOn(state([]), Texts(text, before), text(items[n]), state(before), state(items), All(good, before), good(items[n]));
      AllLast(good, items);
    }
  }

  lemma AllLast<T(!new)>(good: T -> bool, items: seq<T>)
    requires items != []
    ensures All(good, items) <==> All(good, items[..|items| - 1]) && good(items[|items| - 1])
  {
    var before := items[..|items| - 1];
    if All(good, before) && good(items[|items| - 1]) {
      forall i | 0 <= i < |items| ensures good(items[i]) {
        if i < |before| { assert good(before[i]); }
      }
    }
    if All(good, items) {
      forall i | 0 <= i < |before| ensures good(before[i]) { assert good(items[i]); }
    }
  }

  // ---------------------------------------------------------------- arguments

  lemma TokenRead(t: string)
    requires Token(t)
    ensures FirstWord(t) == t
  {
    if t != "" {
      WordRead(t, "");
      assert t + "" == t;
    }
  }

  /** A prefix that starts with a digit, and a number behind it. */
  lemma DottedStart(key: string, prefix: string, n: nat, rest: string)
    requires prefix != "" && IsDigit(prefix[0]) && DigitsEnd(rest)
    ensures DottedArg(key, prefix, Line(key, prefix + (Print(n) + rest))) == Match(n, rest)
  {
    TextRead(key, "\t" + (prefix + (Print(n) + rest)));
    DigitFirst(prefix, Print(n) + rest);
    TextRead(prefix, Print(n) + rest);
    IntRead(n, rest);
  }

  lemma PrefixDigit(x: nat, y: nat)
    ensures Dotted(x, y) != "" && IsDigit(Dotted(x, y)[0])
  {
    assert Dotted(x, y)[0] == Decimal(x)[0];
  }

  function CheckpointRead(c: Checkpoint): Option<Checkpoint> { if GoodCheckpoint(c) then Some(c) else None }
  function StopRead(n: int): Option<int> { if GoodStop(n) then Some(n) else None }
  function ExitRead(e: Exit): Option<Exit> { if GoodExit(e) then Some(e) else None }

  lemma CheckpointArgRead(x: nat, y: nat, c: Checkpoint)
    requires CheckpointWritable(c)
    ensures CheckpointArg(x, y, CheckpointText(x, y, c)) == CheckpointRead(c)
  {
    PrefixDigit(x, y);
    DottedStart("checkpoint", Dotted(x, y), c.waypoint, "\t" + Print(c.id));
    IntRead(c.id, "");
    assert Decimal(c.id) + "" == Decimal(c.id);
  }

  lemma StopArgRead(x: nat, y: nat, n: nat)
    ensures StopArg(x, y, StopText(x, y, n)) == StopRead(n)
  {
    PrefixDigit(x, y);
    DottedStart("stop", Dotted(x, y), n, "");
  }

  lemma DotIntRead(n: nat, rest: string)
    requires DigitsEnd(rest)
    ensures ScanDotInt("." + (Print(n) + rest)) == Match(n, rest)
  {
    TextRead(".", Print(n) + rest);
    IntRead(n, rest);
  }

  lemma IdRead(id: ElementId)
    requires IdWritable(id)
    ensures ScanId("\t" + IdText(id)) == Match(id, "")
  {
    var last := "." + (Print(id.pt) + "");
    var middle := "." + (Print(id.lane) + last);
    IntRead(id.seg, middle);
    DotIntRead(id.lane, last);
    DotIntRead(id.pt, "");
  }

  lemma ExitArgRead(x: nat, y: nat, e: Exit)
    requires ExitWritable(x, y, e)
    ensures ExitArg(x, y, ExitText(x, y, e)) == ExitRead(e)
  {
    PrefixDigit(x, y);
    DottedStart("exit", Dotted(x, y), e.start.pt, "\t" + IdText(e.end));
    IdRead(e.end);
  }

  lemma MarkingWords(m: Marking)
    requires m != Undefined
    ensures Token(MarkingWord(m)) && MarkingNamed(MarkingWord(m)) == Some(m)
  {
  }

  lemma MarkingRead(w: string, m: Marking)
    requires IsWord(w) && m != Undefined
    ensures BoundaryArg(Line(w, MarkingWord(m))) == Some(m)
  {
    MarkingWords(m);
    TextArg(w, MarkingWord(m));
    TokenRead(MarkingWord(m));
  }

  // ---------------------------------------------------------------- key words and single steps

  lemma FormatVersionWord()
    ensures Plain("format_version") && KeyOf(GeneralMode, "format_version") == FormatVersion
  {
    NoSlash("format_version");
  }

  lemma CreationDateWord()
    ensures Plain("creation_date") && KeyOf(GeneralMode, "creation_date") == CreationDate
  {
    NoSlash("creation_date");
  }

  lemma SegmentNameWord()
    ensures Plain("segment_name") && KeyOf(SegmentMode, "segment_name") == SegmentName
  {
    NoSlash("segment_name");
  }

  lemma LaneWidthWord()
    ensures Plain("lane_width") && KeyOf(LaneMode, "lane_width") == LaneWidth
  {
    NoSlash("lane_width");
  }

  lemma LeftBoundaryWord()
    ensures Plain("left_boundary") && KeyOf(LaneMode, "left_boundary") == LeftBoundary
  {
    NoSlash("left_boundary");
  }

  lemma RightBoundaryWord()
    ensures Plain("right_boundary") && KeyOf(LaneMode, "right_boundary") == RightBoundary
  {
    NoSlash("right_boundary");
  }

  lemma LaneCheckpointWord()
    ensures Plain("checkpoint") && KeyOf(LaneMode, "checkpoint") == CheckpointKey
  {
    NoSlash("checkpoint");
  }

  lemma SpotCheckpointWord()
    ensures Plain("checkpoint") && KeyOf(SpotMode, "checkpoint") == CheckpointKey
  {
    NoSlash("checkpoint");
  }

  lemma StopWord()
    ensures Plain("stop") && KeyOf(LaneMode, "stop") == StopKey
  {
    NoSlash("stop");
  }

  lemma LaneExitWord()
    ensures Plain("exit") && KeyOf(LaneMode, "exit") == ExitKey
  {
    NoSlash("exit");
  }

  lemma PerimeterExitWord()
    ensures Plain("exit") && KeyOf(PerimeterMode, "exit") == ExitKey
  {
    NoSlash("exit");
  }

  lemma ZoneNameWord()
    ensures Plain("zone_name") && KeyOf(ZoneMode, "zone_name") == ZoneName
  {
    NoSlash("zone_name");
  }

  lemma SpotWidthWord()
    ensures Plain("spot_width") && KeyOf(SpotMode, "spot_width") == SpotWidth
  {
    NoSlash("spot_width");
  }

  lemma TextStep(p: Parser, w: string, t: string, key: Key)
    requires Reading(p) && Plain(w) && KeyOf(p.mode, w) == key && Token(t)
    ensures exists a: Rndf.Args :: a.text == t && Step(p, Line(w, t)) == Handle(p, key, a)
  {
    PlainStep(p, w, "\t" + t);
    TextArg(w, t);
    TokenRead(t);
    assert Reads(p, w, Line(w, t)).text == t;
  }

  lemma MarkingStep(p: Parser, w: string, m: Marking, key: Key)
    requires Reading(p) && Plain(w) && KeyOf(p.mode, w) == key && m != Undefined
    ensures exists a: Rndf.Args :: a.marking == Some(m) && Step(p, Line(w, MarkingWord(m))) == Handle(p, key, a)
  {
    PlainStep(p, w, "\t" + MarkingWord(m));
    MarkingRead(w, m);
    assert Reads(p, w, Line(w, MarkingWord(m))).marking == Some(m);
  }

  /** What is read of a checkpoint, stop or exit line in the element that it belongs to. */
  lemma CheckpointStep(p: Parser, x: nat, y: nat, c: Checkpoint)
    requires Reading(p) && Place(p).1 == x && Place(p).2 == y && CheckpointWritable(c)
    requires Plain("checkpoint") && KeyOf(p.mode, "checkpoint") == CheckpointKey
    ensures exists a: Rndf.Args ::
      a.checkpoint == CheckpointRead(c) && Step(p, CheckpointText(x, y, c)) == Handle(p, CheckpointKey, a)
  {
    PlainStep(p, "checkpoint", "\t" + (Dotted(x, y) + (Print(c.waypoint) + ("\t" + Print(c.id)))));
    CheckpointArgRead(x, y, c);
    assert Reads(p, "checkpoint", CheckpointText(x, y, c)).checkpoint == CheckpointRead(c);
  }

  lemma StopStep(p: Parser, x: nat, y: nat, n: nat)
    requires Reading(p) && Place(p).1 == x && Place(p).2 == y
    requires Plain("stop") && KeyOf(p.mode, "stop") == StopKey
    ensures exists a: Rndf.Args :: a.stop == StopRead(n) && Step(p, StopText(x, y, n)) == Handle(p, StopKey, a)
  {
    PlainStep(p, "stop", "\t" + (Dotted(x, y) + (Print(n) + "")));
    StopArgRead(x, y, n);
    assert Reads(p, "stop", StopText(x, y, n)).stop == StopRead(n);
  }

  lemma ExitStep(p: Parser, x: nat, y: nat, e: Exit)
    requires Reading(p) && Place(p).1 == x && Place(p).2 == y && ExitWritable(x, y, e)
    requires Plain("exit") && KeyOf(p.mode, "exit") == ExitKey
    ensures exists a: Rndf.Args :: a.exit == ExitRead(e) && Step(p, ExitText(x, y, e)) == Handle(p, ExitKey, a)
  {
    PlainStep(p, "exit", "\t" + (Dotted(x, y) + (Print(e.start.pt) + ("\t" + IdText(e.end)))));
    ExitArgRead(x, y, e);
    assert Reads(p, "exit", ExitText(x, y, e)).exit == ExitRead(e);
  }


  // Text fields.

  lemma FormatVersionAct(p: Parser, a: Rndf.Args, t: string)
    requires p.mode == GeneralMode && a.text == t
    ensures Handle(p, FormatVersion, a) == p.(file := p.file.(version := t))
  {}

  lemma FormatVersionStep(p: Parser, t: string)
    requires Reading(p) && p.mode == GeneralMode && Token(t)
    ensures Step(p, Line("format_version", t)) == p.(file := p.file.(version := t))
  {
    FormatVersionWord();
    TextStep(p, "format_version", t, FormatVersion);
    var a: Rndf.Args :| a.text == t && Step(p, Line("format_version", t)) == Handle(p, FormatVersion, a);
    FormatVersionAct(p, a, t);
  }

  lemma CreationDateAct(p: Parser, a: Rndf.Args, t: string)
    requires p.mode == GeneralMode && a.text == t
    ensures Handle(p, CreationDate, a) == p.(file := p.file.(date := t))
  {}

  lemma CreationDateStep(p: Parser, t: string)
    requires Reading(p) && p.mode == GeneralMode && Token(t)
    ensures Step(p, Line("creation_date", t)) == p.(file := p.file.(date := t))
  {
    CreationDateWord();
    TextStep(p, "creation_date", t, CreationDate);
    var a: Rndf.Args :| a.text == t && Step(p, Line("creation_date", t)) == Handle(p, CreationDate, a);
    CreationDateAct(p, a, t);
  }

  lemma SegmentNameAct(p: Parser, a: Rndf.Args, t: string)
    requires p.mode == SegmentMode && a.text == t
    ensures Handle(p, SegmentName, a) == p.(segment := p.segment.(name := t))
  {}

  lemma SegmentNameStep(p: Parser, t: string)
    requires Reading(p) && p.mode == SegmentMode && Token(t)
    ensures Step(p, Line("segment_name", t)) == p.(segment := p.segment.(name := t))
  {
    SegmentNameWord();
    TextStep(p, "segment_name", t, SegmentName);
    var a: Rndf.Args :| a.text == t && Step(p, Line("segment_name", t)) == Handle(p, SegmentName, a);
    SegmentNameAct(p, a, t);
  }

  lemma ZoneNameAct(p: Parser, a: Rndf.Args, t: string)
    requires p.mode == ZoneMode && a.text == t
    ensures Handle(p, ZoneName, a) == p.(zone := p.zone.(name := t))
  {}

  lemma ZoneNameStep(p: Parser, t: string)
    requires Reading(p) && p.mode == ZoneMode && Token(t)
    ensures Step(p, Line("zone_name", t)) == p.(zone := p.zone.(name := t))
  {
    ZoneNameWord();
    TextStep(p, "zone_name", t, ZoneName);
    var a: Rndf.Args :| a.text == t && Step(p, Line("zone_name", t)) == Handle(p, ZoneName, a);
    ZoneNameAct(p, a, t);
  }

  // Widths and boundaries, where they are given.

  lemma LaneWidthAct(p: Parser, a: Rndf.Args, n: nat)
    requires p.mode == LaneMode && a.number == Some(n) && n > 0
    ensures Handle(p, LaneWidth, a) == p.(lane := p.lane.(width := n))
  {}

  lemma LaneWidthStep(p: Parser, n: nat)
    requires Reading(p) && p.mode == LaneMode && n > 0
    ensures Step(p, Line("lane_width", Print(n))) == p.(lane := p.lane.(width := n))
  {
    LaneWidthWord();
    NumberStep(p, "lane_width", n, LaneWidth);
    var a: Rndf.Args :| a.number == Some(n) && Step(p, Line("lane_width", Print(n))) == Handle(p, LaneWidth, a);
    LaneWidthAct(p, a, n);
  }

  lemma LaneWidthReaches(p: Parser, n: nat)
    requires Reading(p) && p.mode == LaneMode && p.lane.width == 0
    ensures Reaches(p, WidthText("lane_width", n), true, p.(lane := p.lane.(width := n)))
  {
    if n == 0 {
      ReachNone(p);
    } else {
      LaneWidthStep(p, n);
      ReachOne(p, Line("lane_width", Print(n)), true, p.(lane := p.lane.(width := n)));
    }
  }

  lemma SpotWidthAct(p: Parser, a: Rndf.Args, n: nat)
    requires p.mode == SpotMode && a.number == Some(n) && n > 0
    ensures Handle(p, SpotWidth, a) == p.(spot := p.spot.(width := n))
  {}

  lemma SpotWidthStep(p: Parser, n: nat)
    requires Reading(p) && p.mode == SpotMode && n > 0
    ensures Step(p, Line("spot_width", Print(n))) == p.(spot := p.spot.(width := n))
  {
    SpotWidthWord();
    NumberStep(p, "spot_width", n, SpotWidth);
    var a: Rndf.Args :| a.number == Some(n) && Step(p, Line("spot_width", Print(n))) == Handle(p, SpotWidth, a);
    SpotWidthAct(p, a, n);
  }

  lemma SpotWidthReaches(p: Parser, n: nat)
    requires Reading(p) && p.mode == SpotMode && p.spot.width == 0
    ensures Reaches(p, WidthText("spot_width", n), true, p.(spot := p.spot.(width := n)))
  {
    if n == 0 {
      ReachNone(p);
    } else {
      SpotWidthStep(p, n);
      ReachOne(p, Line("spot_width", Print(n)), true, p.(spot := p.spot.(width := n)));
    }
  }

  lemma LeftBoundaryAct(p: Parser, a: Rndf.Args, m: Marking)
    requires p.mode == LaneMode && a.marking == Some(m)
    ensures Handle(p, LeftBoundary, a) == p.(lane := p.lane.(left := m))
  {}

  lemma LeftBoundaryStep(p: Parser, m: Marking)
    requires Reading(p) && p.mode == LaneMode && m != Undefined
    ensures Step(p, Line("left_boundary", MarkingWord(m))) == p.(lane := p.lane.(left := m))
  {
    LeftBoundaryWord();
    MarkingStep(p, "left_boundary", m, LeftBoundary);
    var a: Rndf.Args :| a.marking == Some(m) && Step(p, Line("left_boundary", MarkingWord(m))) == Handle(p, LeftBoundary, a);
    LeftBoundaryAct(p, a, m);
  }

  lemma LeftBoundaryReaches(p: Parser, m: Marking)
    requires Reading(p) && p.mode == LaneMode && p.lane.left == Undefined
    ensures Reaches(p, MarkingText("left_boundary", m), true, p.(lane := p.lane.(left := m)))
  {
    if m == Undefined {
      ReachNone(p);
    } else {
      LeftBoundaryStep(p, m);
      ReachOne(p, Line("left_boundary", MarkingWord(m)), true, p.(lane := p.lane.(left := m)));
    }
  }

  lemma RightBoundaryAct(p: Parser, a: Rndf.Args, m: Marking)
    requires p.mode == LaneMode && a.marking == Some(m)
    ensures Handle(p, RightBoundary, a) == p.(lane := p.lane.(right := m))
  {}

  lemma RightBoundaryStep(p: Parser, m: Marking)
    requires Reading(p) && p.mode == LaneMode && m != Undefined
    ensures Step(p, Line("right_boundary", MarkingWord(m))) == p.(lane := p.lane.(right := m))
  {
    RightBoundaryWord();
    MarkingStep(p, "right_boundary", m, RightBoundary);
    var a: Rndf.Args :| a.marking == Some(m) && Step(p, Line("right_boundary", MarkingWord(m))) == Handle(p, RightBoundary, a);
    RightBoundaryAct(p, a, m);
  }

  lemma RightBoundaryReaches(p: Parser, m: Marking)
    requires Reading(p) && p.mode == LaneMode && p.lane.right == Undefined
    ensures Reaches(p, MarkingText("right_boundary", m), true, p.(lane := p.lane.(right := m)))
  {
    if m == Undefined {
      ReachNone(p);
    } else {
      RightBoundaryStep(p, m);
      ReachOne(p, Line("right_boundary", MarkingWord(m)), true, p.(lane := p.lane.(right := m)));
    }
  }

  // Checkpoints, stops, exits and way-points.

  function WithLaneCheckpoints(p: Parser, s: seq<Checkpoint>): Parser { p.(lane := p.lane.(checkpoints := s)) }

  lemma LaneCheckpointAct(p: Parser, a: Rndf.Args, t: Checkpoint)
    requires p.mode == LaneMode && a.checkpoint == CheckpointRead(t)
    ensures Handle(p, CheckpointKey, a) == if GoodCheckpoint(t) then WithLaneCheckpoints(p, p.lane.checkpoints + [t]) else Fail(p)
  {}

  lemma LaneCheckpointReaches(p: Parser, x: nat, y: nat, t: Checkpoint)
    requires Reading(p) && p.mode == LaneMode && p.segment.id == x && p.lane.id == y && CheckpointWritable(t)
    ensures Reaches(p, [CheckpointText(x, y, t)], GoodCheckpoint(t), WithLaneCheckpoints(p, p.lane.checkpoints + [t]))
  {
    LaneCheckpointWord();
    CheckpointStep(p, x, y, t);
    var a: Rndf.Args :| a.checkpoint == CheckpointRead(t) && Step(p, CheckpointText(x, y, t)) == Handle(p, CheckpointKey, a);
    LaneCheckpointAct(p, a, t);
    ReachOne(p, CheckpointText(x, y, t), GoodCheckpoint(t), WithLaneCheckpoints(p, p.lane.checkpoints + [t]));
  }

  lemma LaneCheckpointGrows(p: Parser, items: seq<Checkpoint>, i: nat)
    requires i < |items|
    ensures var q := WithLaneCheckpoints(p, items[..i]); WithLaneCheckpoints(q, q.lane.checkpoints + [items[i]]) == WithLaneCheckpoints(p, items[..i + 1])
  {
    assert items[..i] + [items[i]] == items[..i + 1];
  }

  lemma LaneCheckpointsReach(p: Parser, x: nat, y: nat, items: seq<Checkpoint>)
    requires Reading(p) && p.mode == LaneMode && p.segment.id == x && p.lane.id == y && p.lane.checkpoints == []
    requires forall i :: 0 <= i < |items| ==> CheckpointWritable(items[i])
    ensures Reaches(p, CheckpointTexts(x, y, items), All(GoodCheckpoint, items), WithLaneCheckpoints(p, items))
  {
    var text := (t: Checkpoint) => [CheckpointText(x, y, t)];
    var state := (s: seq<Checkpoint>) => WithLaneCheckpoints(p, s);
    forall i: nat | i < |items| ensures ItemReaches(text, GoodCheckpoint, state, items, i) {
      LaneCheckpointGrows(p, items, i);
      LaneCheckpointReaches(WithLaneCheckpoints(p, items[..i]), x, y, items[i]);
    }
    ListReaches(text, GoodCheckpoint, state, items);
  }

  function WithLaneStops(p: Parser, s: seq<int>): Parser { p.(lane := p.lane.(stops := s)) }

  lemma LaneStopAct(p: Parser, a: Rndf.Args, t: int)
    requires p.mode == LaneMode && a.stop == StopRead(t)
    ensures Handle(p, StopKey, a) == if GoodStop(t) then WithLaneStops(p, p.lane.stops + [t]) else Fail(p)
  {}

  lemma LaneStopReaches(p: Parser, x: nat, y: nat, t: int)
    requires Reading(p) && p.mode == LaneMode && p.segment.id == x && p.lane.id == y && t >= 0
    ensures Reaches(p, [StopText(x, y, t)], GoodStop(t), WithLaneStops(p, p.lane.stops + [t]))
  {
    StopWord();
    StopStep(p, x, y, t);
    var a: Rndf.Args :| a.stop == StopRead(t) && Step(p, StopText(x, y, t)) == Handle(p, StopKey, a);
    LaneStopAct(p, a, t);
    ReachOne(p, StopText(x, y, t), GoodStop(t), WithLaneStops(p, p.lane.stops + [t]));
  }

  lemma LaneStopGrows(p: Parser, items: seq<int>, i: nat)
    requires i < |items|
    ensures var q := WithLaneStops(p, items[..i]); WithLaneStops(q, q.lane.stops + [items[i]]) == WithLaneStops(p, items[..i + 1])
  {
    assert items[..i] + [items[i]] == items[..i + 1];
  }

  lemma LaneStopsReach(p: Parser, x: nat, y: nat, items: seq<int>)
    requires Reading(p) && p.mode == LaneMode && p.segment.id == x && p.lane.id == y && p.lane.stops == []
    requires forall i :: 0 <= i < |items| ==> items[i] >= 0
    ensures Reaches(p, StopTexts(x, y, items), All(GoodStop, items), WithLaneStops(p, items))
  {
    var text := (t: int) => [StopText(x, y, t)];
    var state := (s: seq<int>) => WithLaneStops(p, s);
    forall i: nat | i < |items| ensures ItemReaches(text, GoodStop, state, items, i) {
      LaneStopGrows(p, items, i);
      LaneStopReaches(WithLaneStops(p, items[..i]), x, y, items[i]);
    }
    ListReaches(text, GoodStop, state, items);
  }

  function WithLaneExits(p: Parser, s: seq<Exit>): Parser { p.(lane := p.lane.(exits := s)) }

  lemma LaneExitAct(p: Parser, a: Rndf.Args, t: Exit)
    requires p.mode == LaneMode && a.exit == ExitRead(t)
    ensures Handle(p, ExitKey, a) == if GoodExit(t) then WithLaneExits(p, p.lane.exits + [t]) else Fail(p)
  {}

  lemma LaneExitReaches(p: Parser, x: nat, y: nat, t: Exit)
    requires Reading(p) && p.mode == LaneMode && p.segment.id == x && p.lane.id == y && ExitWritable(x, y, t)
    ensures Reaches(p, [ExitText(x, y, t)], GoodExit(t), WithLaneExits(p, p.lane.exits + [t]))
  {
    LaneExitWord();
    ExitStep(p, x, y, t);
    var a: Rndf.Args :| a.exit == ExitRead(t) && Step(p, ExitText(x, y, t)) == Handle(p, ExitKey, a);
    LaneExitAct(p, a, t);
    ReachOne(p, ExitText(x, y, t), GoodExit(t), WithLaneExits(p, p.lane.exits + [t]));
  }

  lemma LaneExitGrows(p: Parser, items: seq<Exit>, i: nat)
    requires i < |items|
    ensures var q := WithLaneExits(p, items[..i]); WithLaneExits(q, q.lane.exits + [items[i]]) == WithLaneExits(p, items[..i + 1])
  {
    assert items[..i] + [items[i]] == items[..i + 1];
  }

  lemma LaneExitsReach(p: Parser, x: nat, y: nat, items: seq<Exit>)
    requires Reading(p) && p.mode == LaneMode && p.segment.id == x && p.lane.id == y && p.lane.exits == []
    requires forall i :: 0 <= i < |items| ==> ExitWritable(x, y, items[i])
    ensures Reaches(p, ExitTexts(x, y, items), All(GoodExit, items), WithLaneExits(p, items))
  {
    var text := (t: Exit) => [ExitText(x, y, t)];
    var state := (s: seq<Exit>) => WithLaneExits(p, s);
    forall i: nat | i < |items| ensures ItemReaches(text, GoodExit, state, items, i) {
      LaneExitGrows(p, items, i);
      LaneExitReaches(WithLaneExits(p, items[..i]), x, y, items[i]);
    }
    ListReaches(text, GoodExit, state, items);
  }

  function WithLaneWaypoints(p: Parser, s: seq<Waypoint>): Parser { p.(lane := p.lane.(waypoints := s)) }

  lemma LaneWaypointReaches(p: Parser, x: nat, y: nat, t: Waypoint)
    requires Reading(p) && p.mode == LaneMode && p.segment.id == x && p.lane.id == y && WaypointWritable(t)
    ensures Reaches(p, [WaypointText(x, y, t)], GoodWaypoint(t), WithLaneWaypoints(p, p.lane.waypoints + [t]))
  {
    LanePointStep(p, t.id, Point(t.lat, t.lng));
    ReachOne(p, WaypointText(x, y, t), GoodWaypoint(t), WithLaneWaypoints(p, p.lane.waypoints + [t]));
  }

  lemma LaneWaypointGrows(p: Parser, items: seq<Waypoint>, i: nat)
    requires i < |items|
    ensures var q := WithLaneWaypoints(p, items[..i]); WithLaneWaypoints(q, q.lane.waypoints + [items[i]]) == WithLaneWaypoints(p, items[..i + 1])
  {
    assert items[..i] + [items[i]] == items[..i + 1];
  }

  lemma LaneWaypointsReach(p: Parser, x: nat, y: nat, items: seq<Waypoint>)
    requires Reading(p) && p.mode == LaneMode && p.segment.id == x && p.lane.id == y && p.lane.waypoints == []
    requires forall i :: 0 <= i < |items| ==> WaypointWritable(items[i])
    ensures Reaches(p, WaypointTexts(x, y, items), All(GoodWaypoint, items), WithLaneWaypoints(p, items))
  {
    var text := (t: Waypoint) => [WaypointText(x, y, t)];
    var state := (s: seq<Waypoint>) => WithLaneWaypoints(p, s);
    forall i: nat | i < |items| ensures ItemReaches(text, GoodWaypoint, state, items, i) {
      LaneWaypointGrows(p, items, i);
      LaneWaypointReaches(WithLaneWaypoints(p, items[..i]), x, y, items[i]);
    }
    ListReaches(text, GoodWaypoint, state, items);
  }

  function WithPerimeterExits(p: Parser, s: seq<Exit>): Parser { p.(perimeter := p.perimeter.(exits := s)) }

  lemma PerimeterExitAct(p: Parser, a: Rndf.Args, t: Exit)
    requires p.mode == PerimeterMode && a.exit == ExitRead(t)
    ensures Handle(p, ExitKey, a) == if GoodExit(t) then WithPerimeterExits(p, p.perimeter.exits + [t]) else Fail(p)
  {}

  lemma PerimeterExitReaches(p: Parser, x: nat, t: Exit)
    requires Reading(p) && p.mode == PerimeterMode && p.zone.id == x && ExitWritable(x, 0, t)
    ensures Reaches(p, [ExitText(x, 0, t)], GoodExit(t), WithPerimeterExits(p, p.perimeter.exits + [t]))
  {
    PerimeterExitWord();
    ExitStep(p, x, 0, t);
    var a: Rndf.Args :| a.exit == ExitRead(t) && Step(p, ExitText(x, 0, t)) == Handle(p, ExitKey, a);
    PerimeterExitAct(p, a, t);
    ReachOne(p, ExitText(x, 0, t), GoodExit(t), WithPerimeterExits(p, p.perimeter.exits + [t]));
  }

  lemma PerimeterExitGrows(p: Parser, items: seq<Exit>, i: nat)
    requires i < |items|
    ensures var q := WithPerimeterExits(p, items[..i]); WithPerimeterExits(q, q.perimeter.exits + [items[i]]) == WithPerimeterExits(p, items[..i + 1])
  {
    assert items[..i] + [items[i]] == items[..i + 1];
  }

  lemma PerimeterExitsReach(p: Parser, x: nat, items: seq<Exit>)
    requires Reading(p) && p.mode == PerimeterMode && p.zone.id == x && p.perimeter.exits == []
    requires forall i :: 0 <= i < |items| ==> ExitWritable(x, 0, items[i])
    ensures Reaches(p, ExitTexts(x, 0, items), All(GoodExit, items), WithPerimeterExits(p, items))
  {
    var text := (t: Exit) => [ExitText(x, 0, t)];
    var state := (s: seq<Exit>) => WithPerimeterExits(p, s);
    forall i: nat | i < |items| ensures ItemReaches(text, GoodExit, state, items, i) {
      PerimeterExitGrows(p, items, i);
      PerimeterExitReaches(WithPerimeterExits(p, items[..i]), x, items[i]);
    }
    ListReaches(text, GoodExit, state, items);
  }

  function WithPerimeterWaypoints(p: Parser, s: seq<Waypoint>): Parser { p.(perimeter := p.perimeter.(points := s)) }

  lemma PerimeterWaypointReaches(p: Parser, x: nat, t: Waypoint)
    requires Reading(p) && p.mode == PerimeterMode && p.zone.id == x && WaypointWritable(t)
    ensures Reaches(p, [WaypointText(x, 0, t)], GoodWaypoint(t), WithPerimeterWaypoints(p, p.perimeter.points + [t]))
  {
    PerimeterPointStep(p, t.id, Point(t.lat, t.lng));
    ReachOne(p, WaypointText(x, 0, t), GoodWaypoint(t), WithPerimeterWaypoints(p, p.perimeter.points + [t]));
  }

  lemma PerimeterWaypointGrows(p: Parser, items: seq<Waypoint>, i: nat)
    requires i < |items|
    ensures var q := WithPerimeterWaypoints(p, items[..i]); WithPerimeterWaypoints(q, q.perimeter.points + [items[i]]) == WithPerimeterWaypoints(p, items[..i + 1])
  {
    assert items[..i] + [items[i]] == items[..i + 1];
  }

  lemma PerimeterWaypointsReach(p: Parser, x: nat, items: seq<Waypoint>)
    requires Reading(p) && p.mode == PerimeterMode && p.zone.id == x && p.perimeter.points == []
    requires forall i :: 0 <= i < |items| ==> WaypointWritable(items[i])
    ensures Reaches(p, WaypointTexts(x, 0, items), All(GoodWaypoint, items), WithPerimeterWaypoints(p, items))
  {
    var text := (t: Waypoint) => [WaypointText(x, 0, t)];
    var state := (s: seq<Waypoint>) => WithPerimeterWaypoints(p, s);
    forall i: nat | i < |items| ensures ItemReaches(text, GoodWaypoint, state, items, i) {
      PerimeterWaypointGrows(p, items, i);
      PerimeterWaypointReaches(WithPerimeterWaypoints(p, items[..i]), x, items[i]);
    }
    ListReaches(text, GoodWaypoint, state, items);
  }

  function WithSpotWaypoints(p: Parser, s: seq<Waypoint>): Parser { p.(spot := p.spot.(waypoints := s)) }

  lemma SpotWaypointReaches(p: Parser, x: nat, y: nat, t: Waypoint)
    requires Reading(p) && p.mode == SpotMode && p.zone.id == x && p.spot.id == y && WaypointWritable(t)
    ensures Reaches(p, [WaypointText(x, y, t)], GoodWaypoint(t), WithSpotWaypoints(p, p.spot.waypoints + [t]))
  {
    SpotPointStep(p, t.id, Point(t.lat, t.lng));
    ReachOne(p, WaypointText(x, y, t), GoodWaypoint(t), WithSpotWaypoints(p, p.spot.waypoints + [t]));
  }

  lemma SpotWaypointGrows(p: Parser, items: seq<Waypoint>, i: nat)
    requires i < |items|
    ensures var q := WithSpotWaypoints(p, items[..i]); WithSpotWaypoints(q, q.spot.waypoints + [items[i]]) == WithSpotWaypoints(p, items[..i + 1])
  {
    assert items[..i] + [items[i]] == items[..i + 1];
  }

  lemma SpotWaypointsReach(p: Parser, x: nat, y: nat, items: seq<Waypoint>)
    requires Reading(p) && p.mode == SpotMode && p.zone.id == x && p.spot.id == y && p.spot.waypoints == []
    requires forall i :: 0 <= i < |items| ==> WaypointWritable(items[i])
    ensures Reaches(p, WaypointTexts(x, y, items), All(GoodWaypoint, items), WithSpotWaypoints(p, items))
  {
    var text := (t: Waypoint) => [WaypointText(x, y, t)];
    var state := (s: seq<Waypoint>) => WithSpotWaypoints(p, s);
    forall i: nat | i < |items| ensures ItemReaches(text, GoodWaypoint, state, items, i) {
      SpotWaypointGrows(p, items, i);
      SpotWaypointReaches(WithSpotWaypoints(p, items[..i]), x, y, items[i]);
    }
    ListReaches(text, GoodWaypoint, state, items);
  }

  lemma SpotCheckpointAct(p: Parser, a: Rndf.Args, c: Checkpoint)
    requires p.mode == SpotMode && a.checkpoint == CheckpointRead(c)
    ensures Handle(p, CheckpointKey, a) == if GoodCheckpoint(c) then p.(spot := p.spot.(checkpoint := c)) else Fail(p)
  {}

  lemma SpotCheckpointStep(p: Parser, x: nat, y: nat, c: Checkpoint)
    requires Reading(p) && p.mode == SpotMode && p.zone.id == x && p.spot.id == y && CheckpointWritable(c)
    ensures Step(p, CheckpointText(x, y, c)) ==
      if GoodCheckpoint(c) then p.(spot := p.spot.(checkpoint := c)) else Fail(p)
  {
    SpotCheckpointWord();
    CheckpointStep(p, x, y, c);
    var a: Rndf.Args :| a.checkpoint == CheckpointRead(c) && Step(p, CheckpointText(x, y, c)) == Handle(p, CheckpointKey, a);
    SpotCheckpointAct(p, a, c);
  }

  // ---------------------------------------------------------------- lanes and segments

  lemma LaneHeadReaches(p: Parser, x: nat, l: Lane, q: Parser)
    requires Reading(p) && p.segment.id == x && p.lane == NO_LANE && l.id >= 0 && l.count >= 0
    requires q == p.(mode := LaneMode, lane := NO_LANE.(id := l.id, count := l.count))
    ensures Reaches(p, LaneHead(x, l), l.id > 0 && l.count > 0, q)
  {
    var q0 := To(p, LaneMode).(lane := NO_LANE.(id := l.id));
    var q1 := q0.(lane := q0.lane.(count := l.count));
    LaneStep(p, x, l.id);
    ReachOne(p, ElementLine("lane", x, l.id), l.id > 0, q0);
    WaypointCountStep(q0, l.count);
    ReachOne(q0, Line("num_waypoints", Print(l.count)), l.count > 0, q1);
    ReachOn(p, [ElementLine("lane", x, l.id)], [Line("num_waypoints", Print(l.count))], q0, q1, l.id > 0, l.count > 0);
    ReachTo(p, LaneHead(x, l), l.id > 0 && l.count > 0, q1, q);
  }

  lemma ReachTo(p: Parser, lines: seq<string>, good: bool, q: Parser, r: Parser)
    requires Reaches(p, lines, good, q) && Alike(q, r)
    ensures Reaches(p, lines, good, r)
  {
    if good { AlikeChain(Run(p, lines), q, r); }
  }

  lemma LaneSidesReach(p: Parser, l: Lane, q: Parser)
    requires Reading(p) && p.mode == LaneMode && l.width >= 0
    requires p.lane.width == 0 && p.lane.left == Undefined && p.lane.right == Undefined
    requires q == p.(lane := p.lane.(width := l.width, left := l.left, right := l.right))
    ensures Reaches(p, LaneSides(l), true, q)
  {
    var a, b, c := WidthText("lane_width", l.width), MarkingText("left_boundary", l.left), MarkingText("right_boundary", l.right);
    LaneWidthReaches(p, l.width);
    var p1 := p.(lane := p.lane.(width := l.width));
    LeftBoundaryReaches(p1, l.left);
    var p2 := p1.(lane := p1.lane.(left := l.left));
    RightBoundaryReaches(p2, l.right);
    assert p2.(lane := p2.lane.(right := l.right)) == q;
    ReachOn(p1, b, c, p2, q, true, true);
    ReachOn(p, a, b + c, p1, q, true, true);
  }

  /** Everything in a lane but its header and its end. */
  ghost predicate GoodLaneBody(l: Lane) {
    All(GoodCheckpoint, l.checkpoints) && All(GoodStop, l.stops) && All(GoodExit, l.exits) && All(GoodWaypoint, l.waypoints)
  }

  lemma LaneBodyReaches(p: Parser, x: nat, l: Lane, q: Parser)
    requires Reading(p) && p.mode == LaneMode && p.segment.id == x && LaneWritable(x, l)
    requires p.lane == l.(checkpoints := [], stops := [], exits := [], waypoints := []) && q == p.(lane := l)
    ensures Reaches(p, LaneBody(x, l), GoodLaneBody(l), q)
  {
    var a, b := CheckpointTexts(x, l.id, l.checkpoints), StopTexts(x, l.id, l.stops);
    var c, d := ExitTexts(x, l.id, l.exits), WaypointTexts(x, l.id, l.waypoints);
    var p1 := WithLaneCheckpoints(p, l.checkpoints);
    var p2 := WithLaneStops(p1, l.stops);
    var p3 := WithLaneExits(p2, l.exits);
    assert WithLaneWaypoints(p3, l.waypoints) == q;
    LaneCheckpointsReach(p, x, l.id, l.checkpoints);
    LaneStopsReach(p1, x, l.id, l.stops);
    LaneExitsReach(p2, x, l.id, l.exits);
    LaneWaypointsReach(p3, x, l.id, l.waypoints);
    ReachFour(p, a, b, c, d, p1, p2, p3, q, All(GoodCheckpoint, l.checkpoints), All(GoodStop, l.stops),
              All(GoodExit, l.exits), All(GoodWaypoint, l.waypoints));
  }

  lemma ReachFour(p: Parser, a: seq<string>, b: seq<string>, c: seq<string>, d: seq<string>,
                  p1: Parser, p2: Parser, p3: Parser, q: Parser, goodA: bool, goodB: bool, goodC: bool, goodD: bool)
    requires Reaches(p, a, goodA, p1) && (goodA ==> Reaches(p1, b, goodB, p2))
    requires goodA && goodB ==> Reaches(p2, c, goodC, p3)
    requires goodA && goodB && goodC ==> Reaches(p3, d, goodD, q)
    ensures Reaches(p, a + (b + (c + d)), goodA && goodB && goodC && goodD, q)
  {
    if goodA {
      if goodB {
        ReachOn(p2, c, d, p3, q, goodC, goodD);
      }
      ReachOn(p1, b, c + d, p2, q, goodB, goodC && goodD);
    }
    ReachOn(p, a, b + (c + d), p1, q, goodA, goodB && goodC && goodD);
  }

  function WithLanes(p: Parser, lanes: seq<Lane>): Parser { p.(segment := p.segment.(lanes := lanes)) }

  lemma LaneEndReaches(p: Parser, l: Lane, q: Parser)
    requires Reading(p) && p.mode == LaneMode && p.lane == l
    requires q == p.(mode := SegmentMode, segment := p.segment.(lanes := p.segment.lanes + [l]), lane := NO_LANE)
    ensures Reaches(p, ["end_lane"], LaneValid(l), q)
  {
    var r := To(p, SegmentMode).(segment := p.segment.(lanes := p.segment.lanes + [p.lane]), lane := NO_LANE);
    EndLaneStep(p);
    ReachOne(p, "end_lane", LaneValid(l), r);
    ReachTo(p, ["end_lane"], LaneValid(l), r, q);
  }

  /** The lines of a lane add it to its segment, or are rejected. */
  lemma LaneReaches(p: Parser, x: nat, l: Lane)
    requires Reading(p) && p.mode == SegmentMode && p.segment.id == x && p.lane == NO_LANE && LaneWritable(x, l)
    ensures Reaches(p, LaneText(x, l), GoodLane(l), WithLanes(p, p.segment.lanes + [l]))
  {
    var p1 := p.(mode := LaneMode, lane := NO_LANE.(id := l.id, count := l.count));
    var p2 := p1.(lane := p1.lane.(width := l.width, left := l.left, right := l.right));
    var p3 := p2.(lane := l);
    var q := WithLanes(p, p.segment.lanes + [l]);
    LaneHeadReaches(p, x, l, p1);
    LaneSidesReach(p1, l, p2);
    LaneBodyReaches(p2, x, l, p3);
    LaneEndReaches(p3, l, q);
    ReachFour(p, LaneHead(x, l), LaneSides(l), LaneBody(x, l), ["end_lane"], p1, p2, p3, q,
              l.id > 0 && l.count > 0, true, GoodLaneBody(l), LaneValid(l));
  }

  lemma LanesReach(p: Parser, x: nat, lanes: seq<Lane>)
    requires Reading(p) && p.mode == SegmentMode && p.segment.id == x && p.lane == NO_LANE && p.segment.lanes == []
    requires forall i :: 0 <= i < |lanes| ==> LaneWritable(x, lanes[i])
    ensures Reaches(p, LaneTexts(x, lanes), All(GoodLane, lanes), WithLanes(p, lanes))
  {
    var text := (l: Lane) => LaneText(x, l);
    var state := (s: seq<Lane>) => WithLanes(p, s);
    forall i: nat | i < |lanes| ensures ItemReaches(text, GoodLane, state, lanes, i) {
      assert lanes[..i] + [lanes[i]] == lanes[..i + 1];
      assert WithLanes(WithLanes(p, lanes[..i]), lanes[..i + 1]) == WithLanes(p, lanes[..i + 1]);
      LaneReaches(WithLanes(p, lanes[..i]), x, lanes[i]);
    }
    ListReaches(text, GoodLane, state, lanes);
  }

  lemma SegmentHeadReaches(p: Parser, s: Segment, q: Parser)
    requires Reading(p) && p.segment == NO_SEGMENT && s.id >= 0 && s.count >= 0 && Token(s.name)
    requires q == p.(mode := SegmentMode, segment := s.(lanes := []))
    ensures Reaches(p, SegmentHead(s), s.id > 0 && s.count > 0, q)
  {
    var p1 := To(p, SegmentMode).(segment := NO_SEGMENT.(id := s.id));
    var p2 := p1.(segment := p1.segment.(count := s.count));
    var p3 := p2.(segment := p2.segment.(name := s.name));
    SegmentStep(p, s.id);
    ReachOne(p, Line("segment", Print(s.id)), s.id > 0, p1);
    LaneCountStep(p1, s.count);
    ReachOne(p1, Line("num_lanes", Print(s.count)), s.count > 0, p2);
    SegmentNameStep(p2, s.name);
    ReachOne(p2, Line("segment_name", s.name), true, p3);
    ReachOn(p1, [Line("num_lanes", Print(s.count))], [Line("segment_name", s.name)], p2, p3, s.count > 0, true);
    ReachOn(p, [Line("segment", Print(s.id))], [Line("num_lanes", Print(s.count))] + [Line("segment_name", s.name)], p1, p3,
            s.id > 0, s.count > 0);
    ReachTo(p, SegmentHead(s), s.id > 0 && s.count > 0, p3, q);
  }

  function WithSegments(p: Parser, segments: seq<Segment>): Parser { p.(file := p.file.(segments := segments)) }

  lemma SegmentEndReaches(p: Parser, s: Segment, q: Parser)
    requires Reading(p) && p.mode == SegmentMode && p.segment == s
    requires q == p.(mode := GeneralMode, segment := NO_SEGMENT, file := p.file.(segments := p.file.segments + [s]))
    ensures Reaches(p, ["end_segment"], SegmentValid(s), q)
  {
    var r := To(p, GeneralMode).(file := p.file.(segments := p.file.segments + [p.segment]), segment := NO_SEGMENT);
    EndSegmentStep(p);
    ReachOne(p, "end_segment", SegmentValid(s), r);
    ReachTo(p, ["end_segment"], SegmentValid(s), r, q);
  }

  lemma SegmentReaches(p: Parser, s: Segment)
    requires Between(p) && SegmentWritable(s)
    ensures Reaches(p, SegmentText(s), GoodSegment(s), WithSegments(p, p.file.segments + [s]))
  {
    var p1 := p.(mode := SegmentMode, segment := s.(lanes := []));
    var p2 := p1.(segment := s);
    var q := WithSegments(p, p.file.segments + [s]);
    SegmentHeadReaches(p, s, p1);
    LanesReach(p1, s.id, s.lanes);
    assert WithLanes(p1, s.lanes) == p2;
    SegmentEndReaches(p2, s, q);
    ReachOn(p1, LaneTexts(s.id, s.lanes), ["end_segment"], p2, q, All(GoodLane, s.lanes), SegmentValid(s));
    ReachOn(p, SegmentHead(s), LaneTexts(s.id, s.lanes) + ["end_segment"], p1, q, s.id > 0 && s.count > 0,
            All(GoodLane, s.lanes) && SegmentValid(s));
  }

  lemma SegmentsReach(p: Parser, segments: seq<Segment>)
    requires Between(p) && p.file.segments == [] && forall i :: 0 <= i < |segments| ==> SegmentWritable(segments[i])
    ensures Reaches(p, SegmentTexts(segments), All(GoodSegment, segments), WithSegments(p, segments))
  {
    var text := (s: Segment) => SegmentText(s);
    var state := (s: seq<Segment>) => WithSegments(p, s);
    forall i: nat | i < |segments| ensures ItemReaches(text, GoodSegment, state, segments, i) {
      assert segments[..i] + [segments[i]] == segments[..i + 1];
      assert WithSegments(WithSegments(p, segments[..i]), segments[..i + 1]) == WithSegments(p, segments[..i + 1]);
      SegmentReaches(WithSegments(p, segments[..i]), segments[i]);
    }
    ListReaches(text, GoodSegment, state, segments);
  }

  // ---------------------------------------------------------------- perimeters, spots and zones

  lemma PerimeterHeadReaches(p: Parser, x: nat, m: Perimeter, q: Parser)
    requires Reading(p) && p.zone.id == x && p.perimeter == NO_PERIMETER && m.id >= 0 && m.count >= 0
    requires q == p.(mode := PerimeterMode, perimeter := Perimeter(m.id, m.count, [], []))
    ensures Reaches(p, PerimeterHead(x, m), m.id == 0 && m.count > 0, q)
  {
    var p1 := To(p, PerimeterMode).(perimeter := NO_PERIMETER.(id := m.id));
    var p2 := p1.(perimeter := p1.perimeter.(count := m.count));
    PerimeterStep(p, x, m.id);
    ReachOne(p, ElementLine("perimeter", x, m.id), m.id == 0, p1);
    PointCountStep(p1, m.count);
    ReachOne(p1, Line("num_perimeterpoints", Print(m.count)), m.count > 0, p2);
    ReachOn(p, [ElementLine("perimeter", x, m.id)], [Line("num_perimeterpoints", Print(m.count))], p1, p2, m.id == 0, m.count > 0);
    ReachTo(p, PerimeterHead(x, m), m.id == 0 && m.count > 0, p2, q);
  }

  lemma PerimeterEndReaches(p: Parser, m: Perimeter, q: Parser)
    requires Reading(p) && p.mode == PerimeterMode && p.perimeter == m
    requires q == p.(mode := ZoneMode, zone := p.zone.(perimeter := m), perimeter := NO_PERIMETER)
    ensures Reaches(p, ["end_perimeter"], PerimeterValid(m), q)
  {
    var r := To(p, ZoneMode).(zone := p.zone.(perimeter := p.perimeter), perimeter := NO_PERIMETER);
    EndPerimeterStep(p);
    ReachOne(p, "end_perimeter", PerimeterValid(m), r);
    ReachTo(p, ["end_perimeter"], PerimeterValid(m), r, q);
  }

  /** The lines of a perimeter set it, or are rejected; a zone may have none. */
  lemma PerimeterReaches(p: Parser, x: nat, m: Perimeter)
    requires Reading(p) && p.mode == ZoneMode && p.zone.id == x && p.perimeter == NO_PERIMETER
    requires p.zone.perimeter == NO_PERIMETER && PerimeterWritable(x, m)
    ensures Reaches(p, PerimeterText(x, m), GoodPerimeter(m), p.(zone := p.zone.(perimeter := m)))
  {
    var q := p.(zone := p.zone.(perimeter := m));
    if m == NO_PERIMETER {
      assert q == p;
      ReachNone(p);
    } else {
      var p1 := p.(mode := PerimeterMode, perimeter := Perimeter(m.id, m.count, [], []));
      var p2 := WithPerimeterExits(p1, m.exits);
      var p3 := p1.(perimeter := m);
      assert WithPerimeterWaypoints(p2, m.points) == p3;
      PerimeterHeadReaches(p, x, m, p1);
      PerimeterExitsReach(p1, x, m.exits);
      PerimeterWaypointsReach(p2, x, m.points);
      PerimeterEndReaches(p3, m, q);
      ReachFour(p, PerimeterHead(x, m), ExitTexts(x, 0, m.exits), WaypointTexts(x, 0, m.points), ["end_perimeter"],
                p1, p2, p3, q, m.id == 0 && m.count > 0, All(GoodExit, m.exits), All(GoodWaypoint, m.points), PerimeterValid(m));
    }
  }

  lemma SpotCheckpointReaches(p: Parser, x: nat, y: nat, c: Checkpoint)
    requires Reading(p) && p.mode == SpotMode && p.zone.id == x && p.spot.id == y && p.spot.checkpoint == NO_CHECKPOINT
    requires c == NO_CHECKPOINT || CheckpointWritable(c)
    ensures Reaches(p, SpotCheckpoint(x, y, c), c == NO_CHECKPOINT || GoodCheckpoint(c), p.(spot := p.spot.(checkpoint := c)))
  {
    if c == NO_CHECKPOINT {
      assert p.(spot := p.spot.(checkpoint := c)) == p;
      ReachNone(p);
    } else {
      SpotCheckpointStep(p, x, y, c);
      ReachOne(p, CheckpointText(x, y, c), GoodCheckpoint(c), p.(spot := p.spot.(checkpoint := c)));
    }
  }

  lemma SpotEndReaches(p: Parser, s: Spot, q: Parser)
    requires Reading(p) && p.mode == SpotMode && p.spot == s
    requires q == p.(mode := ZoneMode, zone := p.zone.(spots := p.zone.spots + [s]), spot := NO_SPOT)
    ensures Reaches(p, ["end_spot"], SpotValid(s), q)
  {
    var r := To(p, ZoneMode).(zone := p.zone.(spots := p.zone.spots + [p.spot]), spot := NO_SPOT);
    EndSpotStep(p);
    ReachOne(p, "end_spot", SpotValid(s), r);
    ReachTo(p, ["end_spot"], SpotValid(s), r, q);
  }

  lemma SpotOpensWith(p: Parser, x: nat, s: Spot, q: Parser)
    requires Reading(p) && p.zone.id == x && p.spot == NO_SPOT && s.id >= 0
    requires q == p.(mode := SpotMode, spot := NO_SPOT.(id := s.id))
    ensures Reaches(p, [ElementLine("spot", x, s.id)], s.id > 0, q)
  {
    var r := To(p, SpotMode).(spot := NO_SPOT.(id := s.id));
    SpotStep(p, x, s.id);
    ReachOne(p, ElementLine("spot", x, s.id), s.id > 0, r);
    ReachTo(p, [ElementLine("spot", x, s.id)], s.id > 0, r, q);
  }

  function WithSpots(p: Parser, spots: seq<Spot>): Parser { p.(zone := p.zone.(spots := spots)) }

  lemma SpotReaches(p: Parser, x: nat, s: Spot)
    requires Reading(p) && p.mode == ZoneMode && p.zone.id == x && p.spot == NO_SPOT && SpotWritable(s)
    ensures Reaches(p, SpotText(x, s), GoodSpot(s), WithSpots(p, p.zone.spots + [s]))
  {
    var p1 := p.(mode := SpotMode, spot := NO_SPOT.(id := s.id));
    var p2 := p1.(spot := p1.spot.(width := s.width));
    var p3 := p2.(spot := p2.spot.(checkpoint := s.checkpoint));
    var p4 := p3.(spot := s);
    var q := WithSpots(p, p.zone.spots + [s]);
    var c := s.checkpoint == NO_CHECKPOINT || GoodCheckpoint(s.checkpoint);
    var points := WaypointTexts(x, s.id, s.waypoints);
    assert WithSpotWaypoints(p3, s.waypoints) == p4;
    SpotOpensWith(p, x, s, p1);
    SpotWidthReaches(p1, s.width);
    SpotCheckpointReaches(p2, x, s.id, s.checkpoint);
    SpotWaypointsReach(p3, x, s.id, s.waypoints);
    SpotEndReaches(p4, s, q);
    ReachOn(p3, points, ["end_spot"], p4, q, All(GoodWaypoint, s.waypoints), SpotValid(s));
    ReachFour(p, [ElementLine("spot", x, s.id)], WidthText("spot_width", s.width), SpotCheckpoint(x, s.id, s.checkpoint),
              points + ["end_spot"], p1, p2, p3, q, s.id > 0, true, c, All(GoodWaypoint, s.waypoints) && SpotValid(s));
  }

  lemma SpotsReach(p: Parser, x: nat, spots: seq<Spot>)
    requires Reading(p) && p.mode == ZoneMode && p.zone.id == x && p.spot == NO_SPOT && p.zone.spots == []
    requires forall i :: 0 <= i < |spots| ==> SpotWritable(spots[i])
    ensures Reaches(p, SpotTexts(x, spots), All(GoodSpot, spots), WithSpots(p, spots))
  {
    var text := (s: Spot) => SpotText(x, s);
    var state := (s: seq<Spot>) => WithSpots(p, s);
    forall i: nat | i < |spots| ensures ItemReaches(text, GoodSpot, state, spots, i) {
      assert spots[..i] + [spots[i]] == spots[..i + 1];
      assert WithSpots(WithSpots(p, spots[..i]), spots[..i + 1]) == WithSpots(p, spots[..i + 1]);
      SpotReaches(WithSpots(p, spots[..i]), x, spots[i]);
    }
    ListReaches(text, GoodSpot, state, spots);
  }

  lemma ZoneHeadReaches(p: Parser, z: Zone, q: Parser)
    requires Reading(p) && p.zone == NO_ZONE && z.id >= 0 && z.count >= 0 && Token(z.name)
    requires q == p.(mode := ZoneMode, zone := NO_ZONE.(id := z.id, count := z.count, name := z.name))
    ensures Reaches(p, ZoneHead(z), z.id > 0, q)
  {
    var p1 := To(p, ZoneMode).(zone := NO_ZONE.(id := z.id));
    var p2 := p1.(zone := p1.zone.(count := z.count));
    var p3 := p2.(zone := p2.zone.(name := z.name));
    ZoneStep(p, z.id);
    ReachOne(p, Line("zone", Print(z.id)), z.id > 0, p1);
    SpotCountStep(p1, z.count);
    ReachOne(p1, Line("num_spots", Print(z.count)), true, p2);
    ZoneNameStep(p2, z.name);
    ReachOne(p2, Line("zone_name", z.name), true, p3);
    ReachOn(p1, [Line("num_spots", Print(z.count))], [Line("zone_name", z.name)], p2, p3, true, true);
    ReachOn(p, [Line("zone", Print(z.id))], [Line("num_spots", Print(z.count))] + [Line("zone_name", z.name)], p1, p3,
            z.id > 0, true);
    ReachTo(p, ZoneHead(z), z.id > 0, p3, q);
  }

  lemma ZoneEndReaches(p: Parser, z: Zone, q: Parser)
    requires Reading(p) && p.mode == ZoneMode && p.zone == z
    requires q == p.(mode := GeneralMode, zone := NO_ZONE, file := p.file.(zones := p.file.zones + [z]))
    ensures Reaches(p, ["end_zone"], ZoneValid(z), q)
  {
    var r := To(p, GeneralMode).(file := p.file.(zones := p.file.zones + [p.zone]), zone := NO_ZONE);
    EndZoneStep(p);
    ReachOne(p, "end_zone", ZoneValid(z), r);
    ReachTo(p, ["end_zone"], ZoneValid(z), r, q);
  }

  function WithZones(p: Parser, zones: seq<Zone>): Parser { p.(file := p.file.(zones := zones)) }

  lemma ZoneReaches(p: Parser, z: Zone)
    requires Between(p) && ZoneWritable(z)
    ensures Reaches(p, ZoneText(z), GoodZone(z), WithZones(p, p.file.zones + [z]))
  {
    var p1 := p.(mode := ZoneMode, zone := NO_ZONE.(id := z.id, count := z.count, name := z.name));
    var p2 := p1.(zone := p1.zone.(perimeter := z.perimeter));
    var p3 := p2.(zone := z);
    var q := WithZones(p, p.file.zones + [z]);
    assert WithSpots(p2, z.spots) == p3;
    ZoneHeadReaches(p, z, p1);
    PerimeterReaches(p1, z.id, z.perimeter);
    SpotsReach(p2, z.id, z.spots);
    ZoneEndReaches(p3, z, q);
    ReachFour(p, ZoneHead(z), PerimeterText(z.id, z.perimeter), SpotTexts(z.id, z.spots), ["end_zone"], p1, p2, p3, q,
              z.id > 0, GoodPerimeter(z.perimeter), All(GoodSpot, z.spots), ZoneValid(z));
  }

  lemma ZonesReach(p: Parser, zones: seq<Zone>)
    requires Between(p) && p.file.zones == [] && forall i :: 0 <= i < |zones| ==> ZoneWritable(zones[i])
    ensures Reaches(p, ZoneTexts(zones), All(GoodZone, zones), WithZones(p, zones))
  {
    var text := (s: Zone) => ZoneText(s);
    var state := (s: seq<Zone>) => WithZones(p, s);
    forall i: nat | i < |zones| ensures ItemReaches(text, GoodZone, state, zones, i) {
      assert zones[..i] + [zones[i]] == zones[..i + 1];
      assert WithZones(WithZones(p, zones[..i]), zones[..i + 1]) == WithZones(p, zones[..i + 1]);
      ZoneReaches(WithZones(p, zones[..i]), zones[i]);
    }
    ListReaches(text, GoodZone, state, zones);
  }

  // ---------------------------------------------------------------- files

  lemma FileHeadReaches(f: File, q: Parser)
    requires f.segmentCount >= 0 && f.zoneCount >= 0 && Token(f.name) && Token(f.version) && Token(f.date)
    requires q == START.(mode := GeneralMode, file := f.(segments := [], zones := []))
    ensures Reaches(START, FileHead(f), f.segmentCount > 0, q)
  {
    var a, b, c := Line("RNDF_name", f.name), Line("num_segments", Print(f.segmentCount)), Line("num_zones", Print(f.zoneCount));
    var d, e := Line("format_version", f.version), Line("creation_date", f.date);
    var p1 := To(START, GeneralMode).(file := NO_FILE.(name := f.name));
    var p2 := p1.(file := p1.file.(segmentCount := f.segmentCount));
    var p3 := p2.(file := p2.file.(zoneCount := f.zoneCount));
    var p4 := p3.(file := p3.file.(version := f.version));
    var p5 := p4.(file := p4.file.(date := f.date));
    TokenRead(f.name);
    NameStep(START, f.name);
    ReachOne(START, a, true, p1);
    SegmentCountStep(p1, f.segmentCount);
    ReachOne(p1, b, f.segmentCount > 0, p2);
    ZoneCountStep(p2, f.zoneCount);
    ReachOne(p2, c, true, p3);
    FormatVersionStep(p3, f.version);
    ReachOne(p3, d, true, p4);
    CreationDateStep(p4, f.date);
    ReachOne(p4, e, true, p5);
    ReachOn(p3, [d], [e], p4, p5, true, true);
    ReachFour(START, [a], [b], [c], [d] + [e], p1, p2, p3, p5, true, f.segmentCount > 0, true, true);
    ReachTo(START, FileHead(f), f.segmentCount > 0, p5, q);
  }

  /** Reading the lines that a file is printed as, from the start. */
  lemma FileReaches(f: File, q: Parser)
    requires Writable(f) && q == START.(mode := GeneralMode, file := f)
    ensures Reaches(START, FileText(f), Good(f), q)
  {
    var p1 := START.(mode := GeneralMode, file := f.(segments := [], zones := []));
    var p2 := WithSegments(p1, f.segments);
    assert WithZones(p2, f.zones) == q;
    FileHeadReaches(f, p1);
    SegmentsReach(p1, f.segments);
    ZonesReach(p2, f.zones);
    EndFileStep(q);
    ReachOne(q, "end_file", FileValid(f), q);
    ReachFour(START, FileHead(f), SegmentTexts(f.segments), ZoneTexts(f.zones), ["end_file"], p1, p2, q, q,
              f.segmentCount > 0, All(GoodSegment, f.segments), All(GoodZone, f.zones), FileValid(f));
  }

  /**
   * For everything that the format can express: the printed lines are read back as exactly the same
   * file, in every field of every element, if its counts are right and its numbers count from 1;
   * otherwise they are rejected.
   */
  lemma FormatRoundTrip(f: File)
    requires Writable(f)
    ensures Parsed(FileText(f)) == if Good(f) then Some(f) else None
  {
    var q := START.(mode := GeneralMode, file := f);
    FileReaches(f, q);
  }

  lemma SegmentIsGood(s: Segment)
    requires SegmentValid(s) && LanesSound(s.lanes)
    ensures GoodSegment(s)
  {
    forall i | 0 <= i < |s.lanes| ensures GoodLane(s.lanes[i]) {
      var l := s.lanes[i];
      assert l in s.lanes;
      LaneIsGood(l);
    }
  }

  lemma LaneIsGood(l: Lane)
    requires LaneValid(l) && LaneSound(l)
    ensures GoodLane(l)
  {
  }

  lemma ZoneIsGood(z: Zone)
    requires ZoneValid(z) && PerimeterSound(z.perimeter) && SpotsSound(z.spots)
    ensures GoodZone(z)
  {
    forall i | 0 <= i < |z.spots| ensures GoodSpot(z.spots[i]) { assert z.spots[i] in z.spots; }
  }

  lemma SoundIsGood(f: File)
    requires FileValid(f) && FileSound(f)
    ensures Good(f)
  {
    forall i | 0 <= i < |f.segments| ensures GoodSegment(f.segments[i]) {
      assert f.segments[i] in f.segments;
      SegmentIsGood(f.segments[i]);
    }
    forall i | 0 <= i < |f.zones| ensures GoodZone(f.zones[i]) {
      assert f.zones[i] in f.zones;
      ZoneIsGood(f.zones[i]);
    }
  }

  /**
   * A normal form: whatever text an accepted file with the right counts was read from, its printed
   * lines are read as the same file.
   */
  lemma Reprinted(lines: seq<string>, f: File)
    requires Parsed(lines) == Some(f) && FileValid(f) && Writable(f)
    ensures Parsed(FileText(f)) == Parsed(lines)
  {
    ParsedIsSound(lines);
    SoundIsGood(f);
    FormatRoundTrip(f);
  }
}
