/** The integer-valued lines of the narrative report printed when no template is
    given: the correction note, the winds, the sky layers, the adverse weather and
    the station notes (metar.c, lines 550-557 and 561-791). The visibility,
    temperature, dewpoint and pressure lines print floats and are not modelled. */
module Narrative {

  import opened Text
  import opened Record
  import opened Ansi
  import Classify

  // ---------------------------------------------------------------------------
  // Winds
  // ---------------------------------------------------------------------------

  /** How the direction is announced: "Variable at" for 0, "<dir>* at" otherwise. */
  function WindHeading(dir: int): string
  {
    if dir == 0 then "Variable at " else IntText(dir) + "* at "
  }

  /** The speed, red when colour is on and it reaches 10 knots. */
  function SpeedClause(speed: int, colour: bool): string
  {
    Paint(IntText(speed) + " knots", Red, colour && speed >= 10)
  }

  /** The gust clause: present only for a positive gust, red when colour is on and
      the gust exceeds the speed by 5 knots or more; the space before it stays
      outside the colour. */
  function GustClause(speed: int, gust: int, colour: bool): string
  {
    if gust > 0 then " " + Paint("gusting " + IntText(gust) + " knots", Red, colour && gust - speed >= 5)
    else ""
  }

  /** The winds line: nothing when the direction is absent, "Calm" for a zero speed,
      and otherwise the heading, the speed and the gust clause. The source spells
      this out in four branches (variable or not, colour or not) that print the same
      words and differ only in the colour sequences around the two numbers, which
      is what the two clauses place. */
  function WindLine(dir: int, speed: int, gust: int, colour: bool): (r: string)
    ensures r == "" <==> dir < 0
    ensures dir >= 0 && speed == 0 ==> r == "\tWinds: Calm\n"
  {
    if dir < 0 then ""
    else if speed == 0 then "\tWinds: Calm\n"
    else "\tWinds: " + WindHeading(dir) + SpeedClause(speed, colour) + GustClause(speed, gust, colour) + "\n"
  }

  /** Only the direction decides whether the line is printed: a direction with the
      speed still at its absent value -1 is printed as "-1 knots". */
  lemma AbsentSpeedIsPrinted(dir: int)
    requires dir >= 0
    ensures WindLine(dir, -1, -1, false) == "\tWinds: " + WindHeading(dir) + ("-1" + " knots") + "\n"
  {
    assert IntText(-1) == "-" + NatText(1);
  }

  /** With colour off a moving wind prints in one of the source's four formats: a zero
      direction is announced as variable, any other as "<dir>* at", and the gust
      clause follows only for a positive gust. */
  lemma WindLinePlainVariable(speed: int, gust: int)
    requires speed != 0
    ensures gust > 0 ==> (WindLine(0, speed, gust, false)
      == "\tWinds: Variable at " + IntText(speed) + " knots gusting " + IntText(gust) + " knots\n")
    ensures gust <= 0 ==> (WindLine(0, speed, gust, false)
      == "\tWinds: Variable at " + IntText(speed) + " knots\n")
  {
    assert "\tWinds: Variable at " == "\tWinds: " + "Variable at ";
    WindWords("\tWinds: " + "Variable at ", IntText(speed), gust, IntText(gust));
  }

  lemma WindLinePlainHeading(dir: int, speed: int, gust: int)
    requires dir > 0 && speed != 0
    ensures gust > 0 ==> (WindLine(dir, speed, gust, false)
      == "\tWinds: " + IntText(dir) + "* at " + IntText(speed) + " knots gusting " + IntText(gust) + " knots\n")
    ensures gust <= 0 ==> (WindLine(dir, speed, gust, false)
      == "\tWinds: " + IntText(dir) + "* at " + IntText(speed) + " knots\n")
  {
    assert "\tWinds: " + WindHeading(dir) == "\tWinds: " + IntText(dir) + "* at ";
    WindWords("\tWinds: " + IntText(dir) + "* at ", IntText(speed), gust, IntText(gust));
  }

  /** The uncoloured clauses after the heading `h`, regrouped as the format strings
      write them. */
  lemma WindWords(h: string, speed: string, gust: int, gustText: string)
    ensures h + (speed + " knots") + (if gust > 0 then " " + ("gusting " + gustText + " knots") else "") + "\n"
      == if gust > 0 then h + speed + " knots gusting " + gustText + " knots\n" else h + speed + " knots\n"
  {
    assert " knots gusting " == " knots" + " " + "gusting ";
    assert " knots\n" == " knots" + "\n";
  }

  /** Text of printable characters and tabs only, which holds neither an escape
      character nor a line end. */
  predicate Printable(s: string)
  {
    forall i :: 0 <= i < |s| ==> s[i] == '\t' || ' ' <= s[i]
  }

  lemma PrintableAppend(a: string, b: string)
    requires Printable(a) && Printable(b)
    ensures Printable(a + b)
  {
  }

  lemma PrintableIsPlain(s: string)
    requires Printable(s)
    ensures Plain(s) && '\n' !in s
  {
  }

  lemma IntTextIsPrintable(n: int)
    ensures Printable(IntText(n))
  {
    var s := IntText(n);
    if n < 0 {
      assert forall i :: 0 <= i < |s| - 1 ==> IsDigit(s[1..][i]);
      assert forall i :: 1 <= i < |s| ==> s[i] == s[1..][i - 1];
    }
  }

  lemma WindHeadingIsPlain(dir: int)
    ensures Plain(WindHeading(dir))
  {
    if dir != 0 {
      IntTextIsPrintable(dir);
      PrintableAppend(IntText(dir), "* at ");
      PrintableIsPlain(IntText(dir) + "* at ");
    }
  }

  lemma SpeedClauseHighlight(speed: int, colour: bool)
    ensures Plain(SpeedClause(speed, colour)) <==> !(colour && speed >= 10)
  {
    IntTextIsPrintable(speed);
    PrintableAppend(IntText(speed), " knots");
    PrintableIsPlain(IntText(speed) + " knots");
  }

  lemma GustClauseHighlight(speed: int, gust: int, colour: bool)
    ensures Plain(GustClause(speed, gust, colour)) <==> !(colour && gust > 0 && gust - speed >= 5)
  {
    IntTextIsPrintable(gust);
    PrintableAppend("gusting ", IntText(gust));
    PrintableAppend("gusting " + IntText(gust), " knots");
    PrintableIsPlain("gusting " + IntText(gust) + " knots");
  }

  /** With colour off the winds line carries no escape sequence; with colour on it
      carries one exactly when the speed reaches 10 knots or a positive gust is 5
      knots or more above the speed. */
  lemma WindLineHighlight(dir: int, speed: int, gust: int, colour: bool)
    requires dir >= 0 && speed != 0
    ensures Plain(WindLine(dir, speed, gust, colour))
        <==> !colour || (speed < 10 && !(gust > 0 && gust - speed >= 5))
  {
    WindHeadingIsPlain(dir);
    SpeedClauseHighlight(speed, colour);
    GustClauseHighlight(speed, gust, colour);
  }

  // ---------------------------------------------------------------------------
  // Sky layers
  // ---------------------------------------------------------------------------

  /** The colour of a low ceiling: blue from 1000 feet, red from 500, magenta below. */
  function CeilingColour(base: int): (c: string)
    ensures c == Blue || c == Red || c == Magenta
  {
    if base >= 1000 then Blue else if base >= 500 then Red else Magenta
  }

  /** The three ceiling colours are told apart: each tier gets its own colour. */
  lemma CeilingTiers(base: int)
    ensures CeilingColour(base) == Blue <==> base >= 1000
    ensures CeilingColour(base) == Red <==> 500 <= base < 1000
    ensures CeilingColour(base) == Magenta <==> base < 500
  {
    assert Blue[5] == '4' && Red[5] == '1' && Magenta[5] == '5';
  }

  /** A layer is highlighted when colour is on and it is a ceiling (not VFR) at or
      below 3000 feet. A clear layer never is, having a line of its own. */
  predicate Highlighted(e: SkyEntry, colour: bool)
  {
    colour && e.skyCover != CLR && Classify.IsVfrWeather(e.skyCover) == 0 && e.cloudBaseFtAgl <= 3000
  }

  function LayerText(e: SkyEntry): string
  {
    Classify.SkyConditionLabel(e.skyCover) + " at " + IntText(e.cloudBaseFtAgl) + " feet"
  }

  /** The line of one sky layer. A clear layer has its own wording; any other gives
      its cover and height, wrapped in the colour of the height's tier when the
      layer is highlighted (the source's three coloured branches differ only in
      that colour). */
  function SkyLine(e: SkyEntry, colour: bool): string
  {
    if e.skyCover == CLR then "\tSky condition: Clear" + "\n"
    else
      "\tSky condition: " + Paint(LayerText(e), CeilingColour(e.cloudBaseFtAgl), Highlighted(e, colour))
      + " above ground level" + "\n"
  }

  /** The lines of the reported layers, bottom to top. */
  function SkyLines(layers: seq<SkyEntry>, colour: bool): string
    decreases |layers|
  {
    if |layers| == 0 then "" else SkyLine(layers[0], colour) + SkyLines(layers[1..], colour)
  }

  /** The sky part of a record's report. */
  function SkyReport(w: Metar, colour: bool): string
    requires Valid(w)
  {
    SkyLines(Layers(w), colour)
  }

  /** The number of line ends in a text. */
  function LineCount(s: string): nat
  {
    multiset(s)['\n']
  }

  /** Text without a line end followed by one is a single line. */
  lemma OneLine(x: string)
    requires '\n' !in x
    ensures LineCount(x + "\n") == 1
  {
    assert multiset(x + "\n") == multiset(x) + multiset("\n");
  }

  lemma LineCountAppend(a: string, b: string)
    ensures LineCount(a + b) == LineCount(a) + LineCount(b)
  {
    assert multiset(a + b) == multiset(a) + multiset(b);
  }

  lemma LabelIsPrintable(c: SkyCover)
    ensures Printable(Classify.SkyConditionLabel(c))
  {
    match c
    case BKN => assert Classify.SkyConditionLabel(c) == "Broken clouds";
    case CAVOK => assert Classify.SkyConditionLabel(c) == "Ceiling/visibility okay";
    case FEW => assert Classify.SkyConditionLabel(c) == "Few clouds";
    case OVC => assert Classify.SkyConditionLabel(c) == "Overcast";
    case OVX => assert Classify.SkyConditionLabel(c) == "Sky obscured";
    case SCT => assert Classify.SkyConditionLabel(c) == "Scattered clouds";
    case SKC => assert Classify.SkyConditionLabel(c) == "Sky clear";
    case _ => assert Classify.SkyConditionLabel(c) == "Unknown";
  }

  lemma LayerTextIsPrintable(e: SkyEntry)
    ensures Printable(LayerText(e))
  {
    IntTextIsPrintable(e.cloudBaseFtAgl);
    LabelIsPrintable(e.skyCover);
  }

  /** A layer's line is a single line. */
  lemma SkyLineIsOneLine(e: SkyEntry, colour: bool)
    ensures LineCount(SkyLine(e, colour)) == 1
  {
    if e.skyCover == CLR {
      OneLine("\tSky condition: Clear");
    } else {
      var t := LayerText(e);
      var c := CeilingColour(e.cloudBaseFtAgl);
      LayerTextIsPrintable(e);
      PrintableIsPlain(t);
      assert '\n' !in c && '\n' !in Reset;
      OneLine("\tSky condition: " + Paint(t, c, Highlighted(e, colour)) + " above ground level");
    }
  }

  /** A cloud layer's line carries an escape sequence exactly when the layer is
      highlighted. */
  lemma SkyLineHighlight(e: SkyEntry, colour: bool)
    requires e.skyCover != CLR
    ensures Plain(SkyLine(e, colour)) <==> !Highlighted(e, colour)
  {
    LayerTextIsPrintable(e);
    PrintableIsPlain(LayerText(e));
  }

  /** A clear layer gets a line of its own, never highlighted. */
  lemma ClearSkyLine(e: SkyEntry, colour: bool)
    requires e.skyCover == CLR
    ensures SkyLine(e, colour) == SkyLine(e, false)
    ensures Plain(SkyLine(e, colour))
  {
  }

  /** The sky report has exactly one line per reported layer. */
  lemma {:induction false} SkyLinesCount(layers: seq<SkyEntry>, colour: bool)
    ensures LineCount(SkyLines(layers, colour)) == |layers|
    decreases |layers|
  {
    if |layers| > 0 {
      SkyLineIsOneLine(layers[0], colour);
      SkyLinesCount(layers[1..], colour);
      LineCountAppend(SkyLine(layers[0], colour), SkyLines(layers[1..], colour));
    }
  }

  /** With colour off the sky report carries no escape sequence. */
  lemma {:induction false} SkyLinesPlain(layers: seq<SkyEntry>)
    ensures Plain(SkyLines(layers, false))
    decreases |layers|
  {
    if |layers| > 0 {
      if layers[0].skyCover == CLR {
        ClearSkyLine(layers[0], false);
      } else {
        SkyLineHighlight(layers[0], false);
      }
      SkyLinesPlain(layers[1..]);
    }
  }

  // ---------------------------------------------------------------------------
  // Correction, adverse weather and station notes
  // ---------------------------------------------------------------------------

  /** The "Corrected version" line of a corrected report (yellow with colour on). */
  function CorrectedNote(flags: bv8, colour: bool): (r: string)
    ensures r != "" <==> HasFlag(flags, Corrected)
  {
    if HasFlag(flags, Corrected) then Paint("Corrected version", Yellow, colour) + "\n" else ""
  }

  /** The adverse weather line: only for a non-empty weather string, which is
      printed as it is, after the label (yellow with colour on). */
  function AdverseWeatherLine(wx: string, colour: bool): (r: string)
    ensures r != "" <==> wx != ""
    ensures !colour && wx != "" ==> |r| == |wx| + 19 && r[18..|r| - 1] == wx
  {
    if wx != "" then "\tAdverse weather: " + Paint(wx, Yellow, colour) + "\n" else ""
  }

  /** The maintenance warning (yellow "Warning" with colour on). */
  function MaintenanceNote(flags: bv8, colour: bool): (r: string)
    ensures r != "" <==> HasFlag(flags, Maintenance)
  {
    if HasFlag(flags, Maintenance) then "\t" + Paint("Warning", Yellow, colour) + ": Station needs maintenance" + "\n"
    else ""
  }

  /** The offline warning as the source tests for it: the no-weather bit of the flags
      compared with the maintenance mask. */
  function OfflineNoteAsWritten(flags: bv8, colour: bool): string
  {
    if flags & Bit(NoWeather) == Bit(Maintenance) then "\t" + Paint("Warning", Red, colour) + ": Station offline" + "\n"
    else ""
  }

  /** The masked value is either 0 or the no-weather bit, never the maintenance bit,
      so the offline warning is never printed, whatever the flags. */
  lemma OfflineNoteNeverShown(flags: bv8, colour: bool)
    ensures OfflineNoteAsWritten(flags, colour) == ""
  {
    assert flags & 0x80 == 0 || flags & 0x80 == 0x80;
  }

  /** The offline warning with the test the source evidently intends: the no-weather
      bit is set (red "Warning" with colour on). */
  function OfflineNote(flags: bv8, colour: bool): string
  {
    if HasFlag(flags, NoWeather) then "\t" + Paint("Warning", Red, colour) + ": Station offline" + "\n"
    else ""
  }

  /** The corrected test prints the warning exactly for the stations flagged as
      having no weather, and names the station offline. */
  lemma OfflineNoteShownIffNoWeather(flags: bv8, colour: bool)
    ensures OfflineNote(flags, colour) != "" <==> HasFlag(flags, NoWeather)
    ensures HasFlag(flags, NoWeather) && !colour
      ==> OfflineNote(flags, colour) == "\tWarning" + ": Station offline" + "\n"
  {
  }

  /** The input that separates the two: a report whose only flag is "no weather"
      gets no warning from the source's test and one from the corrected test. */
  lemma OfflineCounterexample()
    ensures OfflineNoteAsWritten(Bit(NoWeather), false) == ""
    ensures OfflineNote(Bit(NoWeather), false) == "\tWarning" + ": Station offline" + "\n"
  {
    OfflineNoteNeverShown(Bit(NoWeather), false);
  }

  /** The note that automated weather is available. */
  function AutomatedNote(flags: bv8): string
  {
    if flags & (Bit(Auto) | Bit(AutoStation)) != 0 then "\tAutomated weather available." + "\n" else ""
  }

  /** The automated note appears exactly when either automation flag is set. */
  lemma AutomatedNoteIff(flags: bv8)
    ensures AutomatedNote(flags) != "" <==> HasFlag(flags, Auto) || HasFlag(flags, AutoStation)
  {
  }

  /** The station notes as the source prints them, in its order: the offline warning
      is tested as written, so it never appears. */
  function Notes(flags: bv8, colour: bool): string
  {
    MaintenanceNote(flags, colour) + OfflineNoteAsWritten(flags, colour) + AutomatedNote(flags)
  }

  /** The station notes with the corrected offline test. */
  function CorrectedNotes(flags: bv8, colour: bool): string
  {
    MaintenanceNote(flags, colour) + OfflineNote(flags, colour) + AutomatedNote(flags)
  }

  lemma MaintenanceNoteLines(flags: bv8, colour: bool)
    ensures LineCount(MaintenanceNote(flags, colour)) == if HasFlag(flags, Maintenance) then 1 else 0
  {
    if HasFlag(flags, Maintenance) {
      var w := Paint("Warning", Yellow, colour);
      assert '\n' !in w by {
        assert '\n' !in Yellow && '\n' !in Reset;
      }
      assert Printable(": Station needs maintenance");
      OneLine("\t" + w + ": Station needs maintenance");
    }
  }

  lemma OfflineNoteLines(flags: bv8, colour: bool)
    ensures LineCount(OfflineNote(flags, colour)) == if HasFlag(flags, NoWeather) then 1 else 0
  {
    if HasFlag(flags, NoWeather) {
      var w := Paint("Warning", Red, colour);
      assert '\n' !in w by {
        assert '\n' !in Red && '\n' !in Reset;
      }
      assert Printable(": Station offline");
      OneLine("\t" + w + ": Station offline");
    }
  }

  lemma AutomatedNoteLines(flags: bv8)
    ensures LineCount(AutomatedNote(flags)) == if HasFlag(flags, Auto) || HasFlag(flags, AutoStation) then 1 else 0
  {
    AutomatedNoteIff(flags);
    if AutomatedNote(flags) != "" {
      assert Printable("\tAutomated weather available.");
      OneLine("\tAutomated weather available.");
    }
  }

  /** As the source prints them, the notes are one line per condition that holds of
      maintenance and either automation flag; the no-weather flag adds nothing. */
  lemma NotesLines(flags: bv8, colour: bool)
    ensures LineCount(Notes(flags, colour))
      == (if HasFlag(flags, Maintenance) then 1 else 0)
         + (if HasFlag(flags, Auto) || HasFlag(flags, AutoStation) then 1 else 0)
  {
    var m := MaintenanceNote(flags, colour);
    MaintenanceNoteLines(flags, colour);
    AutomatedNoteLines(flags);
    OfflineNoteNeverShown(flags, colour);
    assert m + OfflineNoteAsWritten(flags, colour) == m;
    LineCountAppend(m, AutomatedNote(flags));
  }

  /** As the source prints them, a station gets no notes exactly when it is flagged
      neither for maintenance nor as automated, whether or not it reports no weather. */
  lemma NotesEmptyIff(flags: bv8, colour: bool)
    ensures Notes(flags, colour) == "" <==>
      !HasFlag(flags, Maintenance) && !HasFlag(flags, Auto) && !HasFlag(flags, AutoStation)
  {
    AutomatedNoteIff(flags);
    OfflineNoteNeverShown(flags, colour);
  }

  /** With the corrected test the notes are one line per condition that holds:
      maintenance, no weather, and either automation flag. */
  lemma CorrectedNotesLines(flags: bv8, colour: bool)
    ensures LineCount(CorrectedNotes(flags, colour))
      == (if HasFlag(flags, Maintenance) then 1 else 0) + (if HasFlag(flags, NoWeather) then 1 else 0)
         + (if HasFlag(flags, Auto) || HasFlag(flags, AutoStation) then 1 else 0)
  {
    var m := MaintenanceNote(flags, colour);
    var o := OfflineNote(flags, colour);
    MaintenanceNoteLines(flags, colour);
    OfflineNoteLines(flags, colour);
    AutomatedNoteLines(flags);
    LineCountAppend(m, o);
    LineCountAppend(m + o, AutomatedNote(flags));
  }

  /** With the corrected test a station flagged for none of those conditions gets no
      notes, and one flagged for any of them gets some. */
  lemma CorrectedNotesEmptyIff(flags: bv8, colour: bool)
    ensures CorrectedNotes(flags, colour) == "" <==>
      !HasFlag(flags, Maintenance) && !HasFlag(flags, NoWeather)
      && !HasFlag(flags, Auto) && !HasFlag(flags, AutoStation)
  {
    AutomatedNoteIff(flags);
    OfflineNoteShownIffNoWeather(flags, colour);
  }

  /** The separating input for the notes as a whole: a station whose only flag is "no
      weather" gets no notes from the source and the offline warning from the
      corrected test. */
  lemma NotesCounterexample()
    ensures Notes(Bit(NoWeather), false) == ""
    ensures CorrectedNotes(Bit(NoWeather), false) == "\tWarning" + ": Station offline" + "\n"
  {
    OfflineCounterexample();
    assert MaintenanceNote(Bit(NoWeather), false) == "";
    assert AutomatedNote(Bit(NoWeather)) == "";
  }

  // ---------------------------------------------------------------------------
  // The lines of one record
  // ---------------------------------------------------------------------------

  /** The winds line of a record. */
  function WindReport(w: Metar, colour: bool): string
  {
    WindLine(w.windDirDegrees, w.windSpeedKt, w.windGustKt, colour)
  }

  /** A record's sky report has exactly as many lines as it reports layers. */
  lemma SkyReportLines(w: Metar, colour: bool)
    requires Valid(w)
    ensures LineCount(SkyReport(w, colour)) == w.skyConditionCount
  {
    SkyLinesCount(Layers(w), colour);
  }

  /** A record that no element filled prints none of the modelled lines: no winds,
      no sky layers, no correction, no adverse weather and no notes. */
  lemma EmptyRecordPrintsNothing(colour: bool)
    ensures WindReport(InitMetar(), colour) == ""
    ensures SkyReport(InitMetar(), colour) == ""
    ensures CorrectedNote(InitMetar().qualityControlFlags, colour) == ""
    ensures AdverseWeatherLine(InitMetar().wxString, colour) == ""
    ensures Notes(InitMetar().qualityControlFlags, colour) == ""
  {
    InitMetarIsAbsent();
    NotesEmptyIff(InitMetar().qualityControlFlags, colour);
  }
}
