/** Lines that are read in an unexpected way: indented ones, and the end of a file. */
module RndfLines {
  import opened WayPoints
  import opened Scanning
  import opened Rndf
  import opened RndfWriter

  // ---------------------------------------------------------------- a space in front of a line

  function Indented(line: string): string { " " + line }

  lemma IndentedWords(line: string)
    ensures FirstWord(Indented(line)) == FirstWord(line) && AfterWord(Indented(line)) == AfterWord(line)
    ensures Blank(Indented(line)) <==> Blank(line)
  {
    var s := Indented(line);
    assert s[1..] == line && IsSpace(s[0]);
    assert SkipSpace(s) == SkipSpace(line);
    if Blank(s) {
      forall i | 0 <= i < |line| ensures line[i] == ' ' || line[i] == '\t' || line[i] == '\r' { assert s[i + 1] == line[i]; }
    }
  }

  lemma IndentedArgs(line: string)
    ensures IntArg(Indented(line)) == IntArg(line) && StringArg(Indented(line)) == StringArg(line)
    ensures BoundaryArg(Indented(line)) == BoundaryArg(line)
  {
    IndentedWords(line);
  }

  /** Literal text that does not begin with a space is not found there. */
  lemma IndentedText(text: string, line: string)
    requires text != "" && text[0] != ' '
    ensures ScanText(text, Indented(line)) == NoMatch
  {
    assert Indented(line)[0] == ' ';
  }

  lemma IndentedLiteral(text: string, prefix: string, line: string)
    requires text != "" && text[0] != ' '
    ensures DottedArg(text, prefix, Indented(line)) == NoMatch
  {
    IndentedText(text, line);
  }

  lemma PrefixStart(x: int, y: int)
    ensures Dotted(x, y) != "" && Dotted(x, y)[0] != ' '
  {
    assert Dotted(x, y)[0] == Print(x)[0];
  }

  lemma IndentedPoint(x: int, y: int, token: string, line: string)
    ensures PointArg(x, y, token, Indented(line)) == None
  {
    PrefixStart(x, y);
    IndentedText(Dotted(x, y), line);
  }

  lemma IndentedCheckpoint(x: int, y: int, line: string)
    ensures CheckpointArg(x, y, Indented(line)) == None
  {
    IndentedLiteral("checkpoint", Dotted(x, y), line);
  }

  lemma IndentedStop(x: int, y: int, line: string)
    ensures StopArg(x, y, Indented(line)) == None
  {
    IndentedLiteral("stop", Dotted(x, y), line);
  }

  lemma IndentedExit(x: int, y: int, line: string)
    ensures ExitArg(x, y, Indented(line)) == None
  {
    IndentedLiteral("exit", Dotted(x, y), line);
  }

  lemma IndentedComment(line: string)
    ensures Contains(Indented(line), "*/") <==> Contains(line, "*/")
  {
    var s := Indented(line);
    if i: nat :| i <= |line| && OccursAt(line, "*/", i) {
      assert s[i + 1..] == line[i..];
      assert OccursAt(s, "*/", i + 1);
    }
    if i: nat :| i <= |s| && OccursAt(s, "*/", i) {
      assert s[i..][..2][0] == '*';
      assert s[i] == '*';
      assert i > 0 && s[i..] == line[i - 1..];
      assert OccursAt(line, "*/", i - 1);
    }
  }

  // Formats that begin with literal text: identifiers are read that way.

  predicate LaneLiteral(key: Key) { key !in {NumWaypoints, LaneWidth, LeftBoundary, RightBoundary, EndLane} }
  predicate PerimeterLiteral(key: Key) { key !in {NumPerimeterPoints, EndPerimeter} }
  predicate SpotLiteral(key: Key) { key !in {SpotWidth, EndSpot} }

  predicate ReadsLiteral(mode: Mode, key: Key) {
    match mode
    case LaneMode => LaneLiteral(key)
    case PerimeterMode => PerimeterLiteral(key)
    case SpotMode => SpotLiteral(key)
    case _ => false
  }

  /** What is still read of an indented line: nothing that begins with literal text. */
  ghost predicate LosesLiterals(a: Rndf.Args, b: Rndf.Args) {
    && b.text == a.text && b.number == a.number && b.marking == a.marking && b.closes == a.closes
    && b.opening == NoMatch && b.checkpoint == None && b.stop == None && b.exit == None && b.point == None
  }

  /** In other modes such formats are not used. */
  ghost predicate SamePlain(a: Rndf.Args, b: Rndf.Args) {
    b.text == a.text && b.number == a.number && b.marking == a.marking && b.closes == a.closes
  }

  lemma IndentedArguments(word: string, x: int, y: int, token: string, line: string)
    requires word != "" && word[0] != ' '
    ensures LosesLiterals(ArgsAt((word, x, y), token, line), ArgsAt((word, x, y), token, Indented(line)))
  {
    IndentedArgs(line);
    IndentedComment(line);
    IndentedLiteral(word, Print(x) + ".", line);
    IndentedCheckpoint(x, y, line);
    IndentedStop(x, y, line);
    IndentedExit(x, y, line);
    IndentedPoint(x, y, token, line);
  }

  lemma IndentedPlainArguments(place: (string, int, int), token: string, line: string)
    ensures SamePlain(ArgsAt(place, token, line), ArgsAt(place, token, Indented(line)))
  {
    IndentedArgs(line);
    IndentedComment(line);
  }

  lemma LiteralLane(p: Parser, key: Key, a: Rndf.Args, b: Rndf.Args)
    requires LosesLiterals(a, b)
    ensures LaneLine(p, key, b) == if LaneLiteral(key) then Fail(p) else LaneLine(p, key, a)
  {}

  lemma LiteralPerimeter(p: Parser, key: Key, a: Rndf.Args, b: Rndf.Args)
    requires LosesLiterals(a, b)
    ensures PerimeterLine(p, key, b) == if PerimeterLiteral(key) then Fail(p) else PerimeterLine(p, key, a)
  {}

  lemma LiteralSpot(p: Parser, key: Key, a: Rndf.Args, b: Rndf.Args)
    requires LosesLiterals(a, b)
    ensures SpotLine(p, key, b) == if SpotLiteral(key) then Fail(p) else SpotLine(p, key, a)
  {}

  lemma PlainHandled(p: Parser, key: Key, a: Rndf.Args, b: Rndf.Args)
    requires SamePlain(a, b) && p.mode !in {LaneMode, PerimeterMode, SpotMode}
    ensures Handle(p, key, b) == Handle(p, key, a)
  {}

  lemma LiteralHandled(p: Parser, key: Key, a: Rndf.Args, b: Rndf.Args)
    requires LosesLiterals(a, b) && p.mode in {LaneMode, PerimeterMode, SpotMode}
    ensures Handle(p, key, b) == if ReadsLiteral(p.mode, key) then Fail(p) else Handle(p, key, a)
  {
    match p.mode
    case LaneMode => LiteralLane(p, key, a, b);
    case PerimeterMode => LiteralPerimeter(p, key, a, b);
    case SpotMode => LiteralSpot(p, key, a, b);
  }

  lemma PlaceWord(p: Parser)
    requires p.mode in {LaneMode, PerimeterMode, SpotMode}
    ensures Place(p).0 != "" && Place(p).0[0] != ' '
  {
    match p.mode
    case LaneMode => assert "lane"[0] == 'l';
    case PerimeterMode => assert "perimeter"[0] == 'p';
    case SpotMode => assert "spot"[0] == 's';
  }

  lemma IndentedHandled(p: Parser, key: Key, token: string, line: string)
    ensures Handle(p, key, ArgsAt(Place(p), token, Indented(line))) ==
      if ReadsLiteral(p.mode, key) then Fail(p) else Handle(p, key, ArgsAt(Place(p), token, line))
  {
    var a, b := ArgsAt(Place(p), token, line), ArgsAt(Place(p), token, Indented(line));
    if p.mode in {LaneMode, PerimeterMode, SpotMode} {
      PlaceWord(p);
      IndentedArguments(Place(p).0, Place(p).1, Place(p).2, token, line);
      LiteralHandled(p, key, a, b);
    } else {
      IndentedPlainArguments(Place(p), token, line);
      PlainHandled(p, key, a, b);
    }
  }

  /** The line is not blank and goes to a format that begins with literal text. */
  predicate Literal(p: Parser, line: string) {
    var mode := Enter(p, FirstWord(line)).mode;
    !Blank(line) && ReadsLiteral(mode, KeyOf(mode, FirstWord(line)))
  }

  /** An indented line is read like the line itself, or rejected if its format begins with literal text. */
  lemma IndentedStep(p: Parser, line: string)
    requires p.valid
    ensures Step(p, Indented(line)) == if Literal(p, line) then Fail(Enter(p, FirstWord(line))) else Step(p, line)
  {
    IndentedWords(line);
    var q := Enter(p, FirstWord(line));
    IndentedHandled(q, KeyOf(q.mode, FirstWord(line)), FirstWord(line), line);
  }

  /**
   * From every state in which the parser still reads: an indented line is accepted as the line is,
   * if and only if its format does not begin with literal text or the line is rejected anyway.
   */
  lemma IndentedExactly(p: Parser, line: string)
    requires p.valid
    ensures Step(p, Indented(line)).valid == Step(p, line).valid <==> !Literal(p, line) || !Step(p, line).valid
    ensures !Literal(p, line) ==> Step(p, Indented(line)) == Step(p, line)
  {
    IndentedStep(p, line);
  }

  /** A lane line that is accepted, and rejected once it is indented. */
  lemma IndentedLaneLine(p: Parser, x: nat)
    requires Reading(p) && p.segment.id == x
    ensures Step(p, ElementLine("lane", x, 1)).valid && !Step(p, Indented(ElementLine("lane", x, 1))).valid
  {
    var line := ElementLine("lane", x, 1);
    LaneStep(p, x, 1);
    LaneWord();
    WordRead("lane", "\t" + (Print(x) + "." + Print(1)));
    assert FirstWord(line) == "lane" && !Blank(line);
    IndentedStep(p, line);
  }

  // ---------------------------------------------------------------- the end of a file

  const END := "end_file"

  lemma EndIsNoRoadKey()
    ensures KeyOf(SegmentMode, END) == Other && KeyOf(LaneMode, END) == Other
  {}

  lemma EndIsNoAreaKey()
    ensures KeyOf(ZoneMode, END) == Other && KeyOf(PerimeterMode, END) == Other && KeyOf(SpotMode, END) == Other
  {}

  lemma NoDot(s: string, x: int, y: int)
    requires forall i :: 0 <= i < |s| ==> s[i] != '.'
    ensures !Contains(s, Dotted(x, y))
  {
    var t := Dotted(x, y);
    var n := |Print(x)|;
    assert t[n] == '.';
    forall i: nat | i <= |s| ensures !OccursAt(s, t, i) {
      if i + |t| <= |s| {
        assert s[i..][..|t|][n] == s[i + n];
      }
    }
  }

  lemma EndIsNoPoint(x: int, y: int, line: string)
    ensures PointArg(x, y, END, line) == None
  {
    assert forall i :: 0 <= i < |END| ==> END[i] != '.';
    NoDot(END, x, y);
  }

  lemma EndKey(mode: Mode)
    requires mode != GeneralMode
    ensures KeyOf(mode, END) == Other
  {
    EndIsNoRoadKey();
    EndIsNoAreaKey();
  }

  lemma NothingElse(p: Parser, a: Rndf.Args)
    requires !p.mode.CommentMode? && p.mode != GeneralMode && a.point == None
    ensures Handle(p, Other, a) == Fail(p)
  {}

  /** The end line is accepted exactly between segments and zones, once the counts are right. */
  lemma EndAccepted(p: Parser)
    requires Reading(p)
    ensures Step(p, END).valid <==> p.mode == GeneralMode && FileValid(p.file)
    ensures Step(p, END).valid ==> Step(p, END) == p
  {
    if p.mode == GeneralMode {
      EndFileStep(p);
    } else {
      EndFileWord();
      BareStep(p, END);
      EndKey(p.mode);
      EndIsNoPoint(Place(p).1, Place(p).2, END);
      NothingElse(p, Reads(p, END, END));
    }
  }

  /**
   * The good case: a text that is not inside a comment and ends with the end line is accepted
   * exactly if it was valid, complete and had the counts it announced; so what is accepted with an
   * end line is a valid file.
   */
  lemma EndedFileIsValid(lines: seq<string>)
    requires !Run(START, lines).mode.CommentMode?
    ensures var p := Run(START, lines); var r := Parsed(lines + [END]);
      && (r.Some? <==> p.valid && p.mode == GeneralMode && FileValid(p.file))
      && (r.Some? ==> r == Some(p.file) && FileValid(r.value) && FileSound(r.value))
  {
    var p := Run(START, lines);
    RunMore(START, lines, END);
    if p.valid {
      EndAccepted(p);
      RunSound(START, lines);
    }
  }

  /** A zone is accepted without any perimeter. */
  lemma BareZoneIsAccepted(p: Parser)
    requires Between(p)
    ensures Run(p, [Line("zone", "1"), Line("num_spots", "0"), "end_zone"]) ==
      ZoneAdded(p, Zone(1, 0, "default", NO_PERIMETER, []))
  {
    var a, b, c := Line("zone", Print(1)), Line("num_spots", Print(0)), "end_zone";
    assert Print(1) == "1" && Print(0) == "0";
    RunTwo(p, a, b);
    RunMore(p, [a, b], c);
    assert [a, b] + [c] == [a, b, c];
    ZoneStep(p, 1);
    var p1 := To(p, ZoneMode).(zone := NO_ZONE.(id := 1));
    SpotCountStep(p1, 0);
    EndZoneStep(p1.(zone := p1.zone.(count := 0)));
  }
}
