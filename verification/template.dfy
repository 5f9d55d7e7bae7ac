/** Template mode: the format string is rewritten by a fixed sequence of strReplace
    passes, one per placeholder, each from one METAR_BIGBUFSIZE buffer into the other. */
module Template {

  import opened Text
  import opened Record
  import opened Replace
  import opened Xml
  import Classify
  import Mapper

  /** METAR_BIGBUFSIZE: the size of both buffers the passes alternate between. */
  const BigBufSize: nat := 8192

  /** What every value wrapper substitutes for a field at its "absent" sentinel. */
  const UnknownText: string := "(unknown)"

  // ---------------------------------------------------------------------------
  // The values of the simple placeholders
  // ---------------------------------------------------------------------------

  /** strReplaceInt's replacement: the "%d" text of a non-negative value, which reads
      back as that value, and "(unknown)" exactly for a negative one. */
  function IntValue(n: int): (s: string)
    ensures s == UnknownText <==> n < 0
    ensures n >= 0 ==> AllDigits(s) && AtoI(s) == n
  {
    if n >= 0 then
      AtoIOfIntText(n);
      assert !IsDigit(UnknownText[0]);
      IntText(n)
    else UnknownText
  }

  /** The renderings template mode relies on and this model does not compute: strftime
      of a time as UTC and as local time, and printf's "%.1f" and "%.2f" of a float read
      from the given element text. `fahrenheit` renders the value converted with
      c * 9 / 5 + 32 to one decimal. */
  datatype Formats = Formats(
    utc: int -> string,
    local: int -> string,
    oneDecimal: string -> string,
    twoDecimals: string -> string,
    fahrenheit: string -> string)

  /** strReplaceTime and strReplaceTimeZulu: the rendering, or "(unknown)" for time 0. */
  function TimeValue(t: int, render: int -> string): string
  {
    if t != 0 then render(t) else UnknownText
  }

  /** strReplaceFloat and strReplaceFloat2: the rendering, or "(unknown)" for NaN. */
  function FloatValue(m: Measure, render: string -> string): string
  {
    match m
    case NaN => UnknownText
    case Reading(text) => render(text)
  }

  // ---------------------------------------------------------------------------
  // The quality-flag composite
  // ---------------------------------------------------------------------------

  /** The code `{quality_control_flags}` shows for each flag. */
  function QualityCode(f: QualityFlag): string
  {
    match f
    case Corrected => "COR"
    case Auto => "AUTO"
    case AutoStation => "AUTOST"
    case Maintenance => "MAINT"
    case NoSignal => "NOSIG"
    case NoLightning => "NOLTN"
    case NoFreezing => "NOFRZ"
    case NoWeather => "INOP"
  }

  /** The codes of the flags among `fs` that are set in `flags`, in the order of `fs`. */
  function SetCodes(flags: bv8, fs: seq<QualityFlag>): seq<string>
    decreases |fs|
  {
    if |fs| == 0 then []
    else (if HasFlag(flags, fs[0]) then [QualityCode(fs[0])] else []) + SetCodes(flags, fs[1..])
  }

  /** The buffer the flag tests build, one test per flag in bit order: the code and a
      space for each flag that is set. */
  function QualityBuffer(flags: bv8, fs: seq<QualityFlag>): string
    decreases |fs|
  {
    if |fs| == 0 then ""
    else (if HasFlag(flags, fs[0]) then QualityCode(fs[0]) + " " else "") + QualityBuffer(flags, fs[1..])
  }

  /** The `{quality_control_flags}` value: the buffer with its last character cut. It is
      the codes of the set flags, in bit order, joined by single spaces. */
  function QualityText(flags: bv8): (r: string)
    ensures r == JoinWords(SetCodes(flags, QualityFlags))
  {
    QualityBufferIsTerminatedCodes(flags, QualityFlags);
    TrimmedTerminatedIsJoin(SetCodes(flags, QualityFlags));
    DropLastChar(QualityBuffer(flags, QualityFlags))
  }

  lemma {:induction false} SpaceTerminatedAppend(a: seq<string>, b: seq<string>)
    ensures SpaceTerminated(a + b) == SpaceTerminated(a) + SpaceTerminated(b)
    decreases |a|
  {
    if |a| > 0 {
      assert (a + b)[1..] == a[1..] + b;
      SpaceTerminatedAppend(a[1..], b);
    } else {
      assert a + b == b;
    }
  }

  lemma {:induction false} QualityBufferIsTerminatedCodes(flags: bv8, fs: seq<QualityFlag>)
    ensures QualityBuffer(flags, fs) == SpaceTerminated(SetCodes(flags, fs))
    decreases |fs|
  {
    if |fs| > 0 {
      var head: seq<string> := if HasFlag(flags, fs[0]) then [QualityCode(fs[0])] else [];
      SpaceTerminatedAppend(head, SetCodes(flags, fs[1..]));
      QualityBufferIsTerminatedCodes(flags, fs[1..]);
    }
  }

  lemma EveryFlagListed(f: QualityFlag)
    ensures f in QualityFlags
  {
    match f
    case Corrected => assert QualityFlags[0] == f;
    case Auto => assert QualityFlags[1] == f;
    case AutoStation => assert QualityFlags[2] == f;
    case Maintenance => assert QualityFlags[3] == f;
    case NoSignal => assert QualityFlags[4] == f;
    case NoLightning => assert QualityFlags[5] == f;
    case NoFreezing => assert QualityFlags[6] == f;
    case NoWeather => assert QualityFlags[7] == f;
  }

  /** A flag's code is among the set codes exactly when the flag is set. */
  lemma {:induction false} CodeInSetCodes(flags: bv8, fs: seq<QualityFlag>, f: QualityFlag)
    ensures QualityCode(f) in SetCodes(flags, fs) <==> f in fs && HasFlag(flags, f)
    decreases |fs|
  {
    if |fs| > 0 {
      assert fs[0] != f ==> QualityCode(fs[0]) != QualityCode(f);
      CodeInSetCodes(flags, fs[1..], f);
      assert f in fs <==> fs[0] == f || f in fs[1..];
    }
  }

  lemma {:induction false} SetCodesAreWords(flags: bv8, fs: seq<QualityFlag>)
    ensures forall k :: 0 <= k < |SetCodes(flags, fs)| ==>
      NoSpace(SetCodes(flags, fs)[k]) && |SetCodes(flags, fs)[k]| > 0
    decreases |fs|
  {
    if |fs| > 0 {
      SetCodesAreWords(flags, fs[1..]);
    }
  }

  lemma JoinWordsStartsWithFirst(ws: seq<string>)
    requires |ws| > 0
    ensures |JoinWords(ws)| >= |ws[0]| && JoinWords(ws)[..|ws[0]|] == ws[0]
  {
    if |ws| > 1 {
      assert JoinWords(ws) == ws[0] + (" " + JoinWords(ws[1..]));
    }
  }

  /** Each flag's code is among the codes of the composite exactly when the flag is set. */
  lemma SetCodesMembership(flags: bv8)
    ensures forall f :: QualityCode(f) in SetCodes(flags, QualityFlags) <==> HasFlag(flags, f)
  {
    forall f ensures QualityCode(f) in SetCodes(flags, QualityFlags) <==> HasFlag(flags, f) {
      EveryFlagListed(f);
      CodeInSetCodes(flags, QualityFlags, f);
    }
  }

  /** The composite is empty exactly when no flag is set. */
  lemma QualityTextEmptyIff(flags: bv8)
    ensures QualityText(flags) == "" <==> forall f :: !HasFlag(flags, f)
  {
    var cs := SetCodes(flags, QualityFlags);
    SetCodesMembership(flags);
    if |cs| > 0 {
      SetCodesAreWords(flags, QualityFlags);
      JoinWordsStartsWithFirst(cs);
      CodeIsSomeFlag(flags, QualityFlags, 0);
      var f :| cs[0] == QualityCode(f);
      assert cs[0] in cs;
      assert HasFlag(flags, f);
    } else {
      forall f ensures !HasFlag(flags, f) {
        assert QualityCode(f) !in cs;
      }
    }
  }

  /** The composite reads back: split at its spaces it gives the codes of the set
      flags, in bit order. */
  lemma QualityTextReadsBack(flags: bv8)
    requires QualityText(flags) != ""
    ensures SplitWords(QualityText(flags)) == SetCodes(flags, QualityFlags)
  {
    var cs := SetCodes(flags, QualityFlags);
    SetCodesAreWords(flags, QualityFlags);
    assert |cs| > 0;
    SplitJoin(cs);
  }

  lemma {:induction false} CodeIsSomeFlag(flags: bv8, fs: seq<QualityFlag>, k: nat)
    requires k < |SetCodes(flags, fs)|
    ensures exists f :: SetCodes(flags, fs)[k] == QualityCode(f)
    decreases |fs|
  {
    if HasFlag(flags, fs[0]) && k == 0 {
      assert SetCodes(flags, fs)[0] == QualityCode(fs[0]);
    } else {
      var head: seq<string> := if HasFlag(flags, fs[0]) then [QualityCode(fs[0])] else [];
      assert SetCodes(flags, fs)[k] == SetCodes(flags, fs[1..])[k - |head|];
      CodeIsSomeFlag(flags, fs[1..], k - |head|);
    }
  }

  /** Two flag bytes that agree on every flag are equal. */
  lemma FlagsAgree(a: bv8, b: bv8)
    requires forall f :: HasFlag(a, f) <==> HasFlag(b, f)
    ensures a == b
  {
    assert HasFlag(a, Corrected) <==> HasFlag(b, Corrected);
    assert HasFlag(a, Auto) <==> HasFlag(b, Auto);
    assert HasFlag(a, AutoStation) <==> HasFlag(b, AutoStation);
    assert HasFlag(a, Maintenance) <==> HasFlag(b, Maintenance);
    assert HasFlag(a, NoSignal) <==> HasFlag(b, NoSignal);
    assert HasFlag(a, NoLightning) <==> HasFlag(b, NoLightning);
    assert HasFlag(a, NoFreezing) <==> HasFlag(b, NoFreezing);
    assert HasFlag(a, NoWeather) <==> HasFlag(b, NoWeather);
  }

  /** The composite loses nothing: two different flag bytes never show the same text. */
  lemma QualityTextDeterminesFlags(a: bv8, b: bv8)
    requires QualityText(a) == QualityText(b)
    ensures a == b
  {
    QualityTextEmptyIff(a);
    QualityTextEmptyIff(b);
    if QualityText(a) != "" {
      QualityTextReadsBack(a);
      QualityTextReadsBack(b);
      SameCodesSameFlags(a, b);
    } else {
      FlagsAgree(a, b);
    }
  }

  lemma SameCodesSameFlags(a: bv8, b: bv8)
    requires SetCodes(a, QualityFlags) == SetCodes(b, QualityFlags)
    ensures a == b
  {
    SetCodesMembership(a);
    SetCodesMembership(b);
    FlagsAgree(a, b);
  }

  /** A corrected report from an automated station shows "COR AUTO". */
  lemma CorrectedAutomatedQualityText()
    ensures QualityText(Bit(Corrected) | Bit(Auto)) == "COR AUTO"
  {
    var cs := ["COR", "AUTO"];
    CorrectedAutomatedCodes();
    assert cs[1..] == ["AUTO"];
    assert JoinWords(cs) == "COR" + " " + "AUTO";
  }

  lemma CorrectedAutomatedCodes()
    ensures SetCodes(Bit(Corrected) | Bit(Auto), QualityFlags) == ["COR", "AUTO"]
  {
    var flags := Bit(Corrected) | Bit(Auto);
    var fs := QualityFlags;
    assert HasFlag(flags, Corrected) && HasFlag(flags, Auto);
    assert !HasFlag(flags, AutoStation) && !HasFlag(flags, Maintenance);
    assert !HasFlag(flags, NoSignal) && !HasFlag(flags, NoLightning);
    assert !HasFlag(flags, NoFreezing) && !HasFlag(flags, NoWeather);
    assert SetCodes(flags, fs[8..]) == [];
    assert SetCodes(flags, fs[7..]) == [] by { assert fs[7..][1..] == fs[8..]; }
    assert SetCodes(flags, fs[6..]) == [] by { assert fs[6..][1..] == fs[7..]; }
    assert SetCodes(flags, fs[5..]) == [] by { assert fs[5..][1..] == fs[6..]; }
    assert SetCodes(flags, fs[4..]) == [] by { assert fs[4..][1..] == fs[5..]; }
    assert SetCodes(flags, fs[3..]) == [] by { assert fs[3..][1..] == fs[4..]; }
    assert SetCodes(flags, fs[2..]) == [] by { assert fs[2..][1..] == fs[3..]; }
    assert SetCodes(flags, fs[1..]) == ["AUTO"] by { assert fs[1..][1..] == fs[2..]; }
  }

  // ---------------------------------------------------------------------------
  // The sky-summary composite
  // ---------------------------------------------------------------------------

  /** A layer as the summary shows it: its cover code, then its base unless it is CLR. */
  function SkyToken(e: SkyEntry): string
  {
    Classify.CoverCode(e.skyCover) + (if e.skyCover != CLR then IntText(e.cloudBaseFtAgl) else "")
  }

  function SkyTokens(layers: seq<SkyEntry>): (ts: seq<string>)
    ensures |ts| == |layers|
    ensures forall k :: 0 <= k < |layers| ==> ts[k] == SkyToken(layers[k])
  {
    seq(|layers|, k requires 0 <= k < |layers| => SkyToken(layers[k]))
  }

  /** The buffer the summary loop builds: per layer the cover code, the "%d" base
      unless the cover is CLR, and a space. */
  function SkyBuffer(layers: seq<SkyEntry>): string
    decreases |layers|
  {
    if |layers| == 0 then ""
    else
      Classify.CoverCode(layers[0].skyCover)
      + (if layers[0].skyCover != CLR then IntText(layers[0].cloudBaseFtAgl) else "")
      + " " + SkyBuffer(layers[1..])
  }

  lemma {:induction false} SkyBufferIsTerminatedTokens(layers: seq<SkyEntry>)
    ensures SkyBuffer(layers) == SpaceTerminated(SkyTokens(layers))
    decreases |layers|
  {
    if |layers| > 0 {
      SkyBufferIsTerminatedTokens(layers[1..]);
      assert SkyTokens(layers)[1..] == SkyTokens(layers[1..]);
    }
  }

  lemma SkyTokenIsWord(e: SkyEntry)
    ensures NoSpace(SkyToken(e)) && |SkyToken(e)| > 0
  {
    var base := IntText(e.cloudBaseFtAgl);
    assert ' ' !in base by {
      if e.cloudBaseFtAgl < 0 {
        assert base == [base[0]] + base[1..];
      }
    }
  }

  /** The `{sky_condition}` value: one token per reported layer, bottom to top, joined by
      single spaces; split at its spaces it gives back exactly those tokens, so it holds
      as many words as the record has layers. */
  function SkyText(w: Metar): (r: string)
    requires Valid(w)
    ensures r == JoinWords(SkyTokens(Layers(w)))
    ensures |Layers(w)| > 0 ==> SplitWords(r) == SkyTokens(Layers(w))
    ensures |Layers(w)| == 0 <==> r == ""
  {
    var ts := SkyTokens(Layers(w));
    SkyBufferIsTerminatedTokens(Layers(w));
    TrimmedTerminatedIsJoin(ts);
    if |ts| > 0 then
      forall k | 0 <= k < |ts| ensures NoSpace(ts[k]) && |ts[k]| > 0 {
        SkyTokenIsWord(Layers(w)[k]);
      }
      SplitJoin(ts);
      JoinWordsStartsWithFirst(ts);
      DropLastChar(SkyBuffer(Layers(w)))
    else
      DropLastChar(SkyBuffer(Layers(w)))
  }


  // ---------------------------------------------------------------------------
  // The passes
  // ---------------------------------------------------------------------------

  /** One replacement pass: the placeholder named after a record field, or one of the
      three derived placeholders (local time, and the two temperatures in Fahrenheit). */
  datatype Pass = Show(field: Field) | ShowLocalTime | ShowTempF | ShowDewpointF

  /** The passes, in the order the source applies them. */
  const Passes: seq<Pass> := [
    Show(RawText), Show(StationId), Show(ObservationTime), ShowLocalTime,
    Show(Latitude), Show(Longitude), Show(TempC), Show(DewpointC), ShowTempF, ShowDewpointF,
    Show(WindDirDegrees), Show(WindSpeedKt), Show(WindGustKt), Show(VisibilityStatuteMi),
    Show(AltimInHg), Show(SeaLevelPressureMb), Show(WxString), Show(ThreeHrPressureTendencyMb),
    Show(MaxTC), Show(MinTC), Show(MaxT24hrC), Show(MinT24hrC), Show(PrecipIn), Show(Pcp3hrIn),
    Show(Pcp6hrIn), Show(Pcp24hrIn), Show(SnowIn), Show(VertVisFt), Show(ElevationM),
    Show(QualityControlFlags), Show(SkyCondition), Show(ReportType), Show(Category)
  ]

  /** The name inside a pass's placeholder: the element name of the field it shows. */
  function PlaceholderName(p: Pass): string
  {
    match p
    case Show(f) => FieldName(f)
    case ShowLocalTime => "observation_localtime"
    case ShowTempF => "temp_f"
    case ShowDewpointF => "dewpoint_f"
  }

  /** A name in braces. */
  function Braced(name: string): (r: string)
    ensures |r| == |name| + 2 && r[0] == '{' && r[|r| - 1] == '}'
  {
    "{" + name + "}"
  }

  /** The text a pass looks for. */
  function Placeholder(p: Pass): string
  {
    Braced(PlaceholderName(p))
  }

  /** The value a field's own placeholder is replaced by. */
  function FieldValue(f: Field, w: Metar, colour: bool, fm: Formats): string
    requires Valid(w)
  {
    match f
    case SkyCondition => SkyText(w)
    case RawText => w.rawText
    case StationId => w.stationId
    case ObservationTime => TimeValue(w.observationTime, fm.utc)
    case Latitude => FloatValue(w.latitude, fm.twoDecimals)
    case Longitude => FloatValue(w.longitude, fm.twoDecimals)
    case TempC => FloatValue(w.tempC, fm.oneDecimal)
    case DewpointC => FloatValue(w.dewpointC, fm.oneDecimal)
    case WindDirDegrees => IntValue(w.windDirDegrees)
    case WindSpeedKt => IntValue(w.windSpeedKt)
    case WindGustKt => IntValue(w.windGustKt)
    case VisibilityStatuteMi => FloatValue(w.visibilityStatuteMi, fm.oneDecimal)
    case AltimInHg => FloatValue(w.altimInHg, fm.twoDecimals)
    // The source fills the sea-level pressure from the altimeter setting.
    case SeaLevelPressureMb => FloatValue(w.altimInHg, fm.twoDecimals)
    case QualityControlFlags => QualityText(w.qualityControlFlags)
    case WxString => w.wxString
    case Category => Classify.FlightConditions(w.flightCategory, colour)
    case ThreeHrPressureTendencyMb => FloatValue(w.threeHrPressureTendencyMb, fm.twoDecimals)
    case MaxTC => FloatValue(w.maxTC, fm.oneDecimal)
    case MinTC => FloatValue(w.minTC, fm.oneDecimal)
    case MaxT24hrC => FloatValue(w.maxT24hrC, fm.oneDecimal)
    case MinT24hrC => FloatValue(w.minT24hrC, fm.oneDecimal)
    case PrecipIn => FloatValue(w.precipIn, fm.oneDecimal)
    case Pcp3hrIn => FloatValue(w.pcp3hrIn, fm.oneDecimal)
    case Pcp6hrIn => FloatValue(w.pcp6hrIn, fm.oneDecimal)
    case Pcp24hrIn => FloatValue(w.pcp24hrIn, fm.oneDecimal)
    case SnowIn => FloatValue(w.snowIn, fm.oneDecimal)
    case VertVisFt => IntValue(w.vertVisFt)
    case ReportType => Classify.MetarTypeText(w.metarType)
    case ElevationM => FloatValue(w.elevationM, fm.oneDecimal)
  }

  /** The replacement a pass writes. */
  function ValueOf(p: Pass, w: Metar, colour: bool, fm: Formats): string
    requires Valid(w)
  {
    match p
    case ShowLocalTime => TimeValue(w.observationTime, fm.local)
    case ShowTempF => FloatValue(w.tempC, fm.fahrenheit)
    case ShowDewpointF => FloatValue(w.dewpointC, fm.fahrenheit)
    case Show(f) => FieldValue(f, w, colour, fm)
  }

  /** The numeric or time field whose value a pass shows, for the passes that show one. */
  function Reads(p: Pass): Option<Field>
  {
    match p
    case ShowLocalTime => Some(ObservationTime)
    case ShowTempF => Some(TempC)
    case ShowDewpointF => Some(DewpointC)
    case Show(f) =>
      if f == SeaLevelPressureMb then Some(AltimInHg)
      else if IsNumeric(f) then Some(f)
      else None
  }

  /** The passes `ps` applied in order, each from one buffer of BigBufSize bytes into
      the other. */
  function ApplyPasses(text: string, ps: seq<Pass>, w: Metar, colour: bool, fm: Formats): (r: string)
    requires Valid(w)
    ensures |ps| > 0 ==> |r| < BigBufSize
    decreases |ps|
  {
    if |ps| == 0 then text
    else ApplyPasses(StrReplace(Placeholder(ps[0]), ValueOf(ps[0], w, colour, fm), text, BigBufSize),
                     ps[1..], w, colour, fm)
  }

  /** Template mode on one record: every pass of the source, in its order. The result
      always fits the buffer with its terminator. */
  function Render(template: string, w: Metar, colour: bool, fm: Formats): (r: string)
    requires Valid(w)
    ensures |r| < BigBufSize
  {
    ApplyPasses(template, Passes, w, colour, fm)
  }

  // ---------------------------------------------------------------------------
  // Where a placeholder can occur
  // ---------------------------------------------------------------------------

  /** A well-formed placeholder: braces at both ends and nowhere else. */
  predicate IsPlaceholder(p: string)
  {
    && |p| >= 2 && p[0] == '{' && p[|p| - 1] == '}'
    && forall i :: 0 < i < |p| - 1 ==> p[i] != '{' && p[i] != '}'
  }

  predicate BraceFree(s: string)
  {
    '{' !in s
  }

  lemma BracedInjective(a: string, b: string)
    requires Braced(a) == Braced(b)
    ensures a == b
  {
    assert a == Braced(a)[1..|a| + 1];
    assert b == Braced(b)[1..|b| + 1];
  }

  /** A name without braces makes a well-formed placeholder. */
  lemma BracedIsPlaceholder(name: string)
    requires '{' !in name && '}' !in name
    ensures IsPlaceholder(Braced(name))
  {
    var r := Braced(name);
    forall i | 0 < i < |r| - 1 ensures r[i] != '{' && r[i] != '}' {
      assert r[i] == name[i - 1];
    }
  }

  /** A braced needle occurs inside a well-formed placeholder only as the whole of it. */
  lemma PlaceholderOccursOnlyAsItself(a: string, b: string, i: nat)
    requires |a| >= 2 && a[0] == '{' && a[|a| - 1] == '}'
    requires IsPlaceholder(b) && MatchAt(a, b, i)
    ensures i == 0 && a == b
  {
    assert b[i] == a[0];
    assert b[i + |a| - 1] == a[|a| - 1];
  }

  lemma PlaceholderMisses(a: string, b: string)
    requires |a| >= 2 && a[0] == '{' && a[|a| - 1] == '}'
    requires IsPlaceholder(b) && a != b
    ensures NoMatchFrom(a, b, 0)
  {
    forall i | 0 <= i <= |b| ensures !MatchAt(a, b, i) {
      if MatchAt(a, b, i) {
        PlaceholderOccursOnlyAsItself(a, b, i);
      }
    }
  }

  /** A needle longer than the text cannot occur in it. */
  lemma LongerNeedleMisses(a: string, b: string)
    requires |a| > |b|
    ensures NoMatchFrom(a, b, 0)
  {
  }

  /** A text without an opening brace holds no placeholder. */
  lemma NoPlaceholderIn(p: string, t: string)
    requires |p| > 0 && p[0] == '{' && BraceFree(t)
    ensures NoMatchFrom(p, t, 0)
  {
    forall i | 0 <= i <= |t| ensures !MatchAt(p, t, i) {
      if i + |p| <= |t| {
        assert t[i..i + |p|][0] == t[i];
      }
    }
  }

  /** The placeholder of pass `k` fits the buffer and no earlier pass's placeholder
      occurs in it. */
  predicate Isolated(ps: seq<Pass>, k: nat)
    requires k < |ps|
  {
    && |Placeholder(ps[k])| < BigBufSize
    && forall j :: 0 <= j < k ==> NoMatchFrom(Placeholder(ps[j]), Placeholder(ps[k]), 0)
  }

  // ---------------------------------------------------------------------------
  // What the passes do
  // ---------------------------------------------------------------------------

  /** Passes whose placeholders do not occur leave a text that fits the buffer alone. */
  lemma {:induction false} ApplyUnmatched(text: string, ps: seq<Pass>, w: Metar, colour: bool, fm: Formats)
    requires Valid(w) && |text| < BigBufSize
    requires forall k :: 0 <= k < |ps| ==> NoMatchFrom(Placeholder(ps[k]), text, 0)
    ensures ApplyPasses(text, ps, w, colour, fm) == text
    decreases |ps|
  {
    if |ps| > 0 {
      StrReplaceWithoutMatch(Placeholder(ps[0]), ValueOf(ps[0], w, colour, fm), text, BigBufSize);
      assert text[..|text|] == text;
      ApplyUnmatched(text, ps[1..], w, colour, fm);
    }
  }

  /** A text that is exactly the placeholder of pass `k` becomes that pass's value,
      when no earlier placeholder occurs in it and the value fits and opens no
      placeholder of its own. */
  lemma {:induction false} ApplySingle(ps: seq<Pass>, k: nat, w: Metar, colour: bool, fm: Formats)
    requires Valid(w) && k < |ps| && Isolated(ps, k)
    requires BraceFree(ValueOf(ps[k], w, colour, fm)) && |ValueOf(ps[k], w, colour, fm)| < BigBufSize
    ensures ApplyPasses(Placeholder(ps[k]), ps, w, colour, fm) == ValueOf(ps[k], w, colour, fm)
    decreases |ps|
  {
    var text := Placeholder(ps[k]);
    if k == 0 {
      var v := ValueOf(ps[0], w, colour, fm);
      ReplaceAllOfNeedle(text, v);
      StrReplaceWhenItFits(text, v, text, BigBufSize);
      forall j | 0 <= j < |ps[1..]| ensures NoMatchFrom(Placeholder(ps[1..][j]), v, 0) {
        NoPlaceholderIn(Placeholder(ps[1..][j]), v);
      }
      ApplyUnmatched(v, ps[1..], w, colour, fm);
    } else {
      assert NoMatchFrom(Placeholder(ps[0]), text, 0);
      StrReplaceWithoutMatch(Placeholder(ps[0]), ValueOf(ps[0], w, colour, fm), text, BigBufSize);
      assert text[..|text|] == text;
      assert ps[1..][k - 1] == ps[k];
      forall j | 0 <= j < k - 1
        ensures NoMatchFrom(Placeholder(ps[1..][j]), Placeholder(ps[1..][k - 1]), 0)
      {
        assert ps[1..][j] == ps[j + 1];
      }
      ApplySingle(ps[1..], k - 1, w, colour, fm);
    }
  }

  /** Passes read a record only through their values: two records whose values agree
      render every template alike. */
  lemma {:induction false} SameValuesRenderAlike(text: string, ps: seq<Pass>, w1: Metar, w2: Metar, colour: bool, fm: Formats)
    requires Valid(w1) && Valid(w2)
    requires forall p :: ValueOf(p, w1, colour, fm) == ValueOf(p, w2, colour, fm)
    ensures ApplyPasses(text, ps, w1, colour, fm) == ApplyPasses(text, ps, w2, colour, fm)
    decreases |ps|
  {
    if |ps| > 0 {
      var next := StrReplace(Placeholder(ps[0]), ValueOf(ps[0], w1, colour, fm), text, BigBufSize);
      SameValuesRenderAlike(next, ps[1..], w1, w2, colour, fm);
    }
  }

  /** A template without an opening brace is printed as it is. */
  lemma PlainTemplateIsUnchanged(template: string, w: Metar, colour: bool, fm: Formats)
    requires Valid(w) && BraceFree(template) && |template| < BigBufSize
    ensures Render(template, w, colour, fm) == template
  {
    forall k | 0 <= k < |Passes| ensures NoMatchFrom(Placeholder(Passes[k]), template, 0) {
      NoPlaceholderIn(Placeholder(Passes[k]), template);
    }
    ApplyUnmatched(template, Passes, w, colour, fm);
  }

  // ---------------------------------------------------------------------------
  // What the passes show
  // ---------------------------------------------------------------------------

  /** The renderings never produce the "(unknown)" text themselves. */
  ghost predicate KnownRenderings(fm: Formats)
  {
    && (forall t :: fm.utc(t) != UnknownText)
    && (forall t :: fm.local(t) != UnknownText)
    && (forall s :: fm.oneDecimal(s) != UnknownText)
    && (forall s :: fm.twoDecimals(s) != UnknownText)
    && (forall s :: fm.fahrenheit(s) != UnknownText)
  }

  /** The field holds a value the wrappers show as "(unknown)": time 0, a negative
      integer, or NaN. */
  predicate Unset(w: Metar, f: Field)
  {
    match f
    case ObservationTime => w.observationTime == 0
    case WindDirDegrees => w.windDirDegrees < 0
    case WindSpeedKt => w.windSpeedKt < 0
    case WindGustKt => w.windGustKt < 0
    case VertVisFt => w.vertVisFt < 0
    case _ => Absent(w, f)
  }

  /** A pass that shows a numeric or time field writes "(unknown)" exactly when that
      field is unset (for renderings that never produce that text themselves), and in
      particular whenever the field holds its "absent" sentinel. */
  lemma UnknownValueIffUnset(p: Pass, w: Metar, colour: bool, fm: Formats)
    requires Valid(w) && Reads(p).Some?
    ensures Absent(w, Reads(p).value) ==> ValueOf(p, w, colour, fm) == UnknownText
    ensures KnownRenderings(fm) ==> (ValueOf(p, w, colour, fm) == UnknownText <==> Unset(w, Reads(p).value))
  {
  }

  /** The placeholder of a pass that shows a field holding its "absent" sentinel
      renders as "(unknown)", provided no earlier placeholder occurs in it. */
  lemma AbsentRendersUnknown(k: nat, w: Metar, colour: bool, fm: Formats)
    requires Valid(w) && k < |Passes| && Isolated(Passes, k)
    requires Reads(Passes[k]).Some? && Absent(w, Reads(Passes[k]).value)
    ensures Render(Placeholder(Passes[k]), w, colour, fm) == UnknownText
  {
    UnknownValueIffUnset(Passes[k], w, colour, fm);
    assert BraceFree(UnknownText);
    ApplySingle(Passes, k, w, colour, fm);
  }

  /** For an observation that lacks the element a pass reads, the placeholder of that
      pass renders as "(unknown)", provided no earlier placeholder occurs in it. */
  lemma MissingElementRendersUnknown(obs: Node, parseTime: string -> Option<int>, k: nat, colour: bool, fm: Formats)
    requires k < |Passes| && Reads(Passes[k]).Some? && Isolated(Passes, k)
    requires forall j :: 0 <= j < |Children(obs)| ==> Name(Children(obs)[j]) != FieldName(Reads(Passes[k]).value)
    ensures Render(Placeholder(Passes[k]), Mapper.MapObservation(obs, parseTime), colour, fm) == UnknownText
  {
    Mapper.MissingElementIsAbsent(obs, parseTime, Reads(Passes[k]).value);
    AbsentRendersUnknown(k, Mapper.MapObservation(obs, parseTime), colour, fm);
  }

  /** An observation without a `temp_c` element renders `{temp_c}` as "(unknown)". */
  lemma MissingTemperatureRendersUnknown(obs: Node, parseTime: string -> Option<int>, colour: bool, fm: Formats)
    requires forall j :: 0 <= j < |Children(obs)| ==> Name(Children(obs)[j]) != "temp_c"
    ensures Render("{temp_c}", Mapper.MapObservation(obs, parseTime), colour, fm) == UnknownText
  {
    TemperatureIsIsolated();
    MissingElementRendersUnknown(obs, parseTime, 6, colour, fm);
  }

  /** Every placeholder before `{temp_c}` is longer than it. */
  lemma TemperatureIsIsolated()
    ensures Passes[6] == Show(TempC) && Placeholder(Passes[6]) == "{temp_c}"
    ensures Isolated(Passes, 6)
  {
    assert Placeholder(Passes[6]) == "{temp_c}";
    forall j | 0 <= j < 6 ensures NoMatchFrom(Placeholder(Passes[j]), Placeholder(Passes[6]), 0) {
      LongerNeedleMisses(Placeholder(Passes[j]), Placeholder(Passes[6]));
    }
  }

  /** An observation without an `observation_time` element renders
      `{observation_time}` as "(unknown)". */
  lemma MissingTimeRendersUnknown(obs: Node, parseTime: string -> Option<int>, colour: bool, fm: Formats)
    requires forall j :: 0 <= j < |Children(obs)| ==> Name(Children(obs)[j]) != "observation_time"
    ensures Render("{observation_time}", Mapper.MapObservation(obs, parseTime), colour, fm) == UnknownText
  {
    TimeIsIsolated();
    MissingElementRendersUnknown(obs, parseTime, 2, colour, fm);
  }

  /** Neither `{raw_text}` nor `{station_id}` occurs in `{observation_time}`. */
  lemma TimeIsIsolated()
    ensures Passes[2] == Show(ObservationTime) && Placeholder(Passes[2]) == "{observation_time}"
    ensures Isolated(Passes, 2)
  {
    var b := "{observation_time}";
    assert Placeholder(Passes[2]) == b;
    assert IsPlaceholder(b);
    forall j | 0 <= j < 2 ensures NoMatchFrom(Placeholder(Passes[j]), b, 0) {
      assert |Placeholder(Passes[j])| < |b|;
      PlaceholderMisses(Placeholder(Passes[j]), b);
    }
  }

  /** `{sea_level_pressure_mb}` shows the altimeter setting: it always shows the same
      text as `{altim_in_hg}`. */
  lemma SeaLevelPressureShowsAltimeter(w: Metar, colour: bool, fm: Formats)
    requires Valid(w)
    ensures ValueOf(Show(SeaLevelPressureMb), w, colour, fm) == ValueOf(Show(AltimInHg), w, colour, fm)
  {
  }

  /** The record's own sea-level pressure is never read: changing it changes no
      rendering. */
  lemma SeaLevelPressureIsNeverShown(template: string, w: Metar, m: Measure, colour: bool, fm: Formats)
    requires Valid(w)
    ensures Render(template, w.(seaLevelPressureMb := m), colour, fm) == Render(template, w, colour, fm)
  {
    var w2 := w.(seaLevelPressureMb := m);
    forall p ensures ValueOf(p, w2, colour, fm) == ValueOf(p, w, colour, fm) {
      SeaLevelPressureUnread(p, w, m, colour, fm);
    }
    SameValuesRenderAlike(template, Passes, w2, w, colour, fm);
  }

  lemma SeaLevelPressureUnread(p: Pass, w: Metar, m: Measure, colour: bool, fm: Formats)
    requires Valid(w)
    ensures ValueOf(p, w.(seaLevelPressureMb := m), colour, fm) == ValueOf(p, w, colour, fm)
  {
    assert Layers(w.(seaLevelPressureMb := m)) == Layers(w);
  }

  /** What `{sea_level_pressure_mb}` evidently should show: the record's own sea-level
      pressure, which the usage text announces in millibars, rather than the altimeter
      setting the source passes. The passes above keep the source's value. */
  function CorrectedSeaLevelValue(w: Metar, fm: Formats): string
  {
    FloatValue(w.seaLevelPressureMb, fm.twoDecimals)
  }

  /** The corrected value follows the record's sea-level pressure and nothing else: it
      is "(unknown)" exactly when that pressure is absent, and the altimeter setting does
      not affect it. */
  lemma CorrectedSeaLevelShowsSeaLevel(w: Metar, m: Measure, fm: Formats)
    requires KnownRenderings(fm)
    ensures CorrectedSeaLevelValue(w, fm) == UnknownText <==> Absent(w, SeaLevelPressureMb)
    ensures CorrectedSeaLevelValue(w.(altimInHg := m), fm) == CorrectedSeaLevelValue(w, fm)
    ensures CorrectedSeaLevelValue(w.(seaLevelPressureMb := m), fm) == FloatValue(m, fm.twoDecimals)
  {
  }

  /** The input that separates the two: a station that reports an altimeter setting
      and no sea-level pressure shows the altimeter reading as its sea-level pressure,
      where the corrected value is "(unknown)". */
  lemma SeaLevelCounterexample(w: Metar, fm: Formats)
    requires Valid(w) && KnownRenderings(fm)
    requires w.altimInHg == Reading("30.01") && w.seaLevelPressureMb == NaN
    ensures ValueOf(Show(SeaLevelPressureMb), w, false, fm) == fm.twoDecimals("30.01") != UnknownText
    ensures CorrectedSeaLevelValue(w, fm) == UnknownText
  {
  }

  /** No pass looks for the names the usage text advertises. */
  lemma AdvertisedNamesAreNoPlaceholders(p: Pass)
    ensures PlaceholderName(p) != "observation_time_local" && PlaceholderName(p) != "sky_conditions"
  {
  }

  /** A well-formed placeholder that no pass looks for comes out of every pass unchanged. */
  lemma ForeignPlaceholderIsKept(t: string, w: Metar, colour: bool, fm: Formats)
    requires Valid(w) && IsPlaceholder(t) && |t| < BigBufSize
    requires forall p :: Placeholder(p) != t
    ensures Render(t, w, colour, fm) == t
  {
    forall k | 0 <= k < |Passes| ensures NoMatchFrom(Placeholder(Passes[k]), t, 0) {
      PlaceholderMisses(Placeholder(Passes[k]), t);
    }
    ApplyUnmatched(t, Passes, w, colour, fm);
  }

  /** A name no pass looks for, braced, comes out of every pass unchanged. */
  lemma ForeignNameIsKept(name: string, w: Metar, colour: bool, fm: Formats)
    requires Valid(w) && '{' !in name && '}' !in name && |name| + 2 < BigBufSize
    requires forall p :: PlaceholderName(p) != name
    ensures Render(Braced(name), w, colour, fm) == Braced(name)
  {
    forall p ensures Placeholder(p) != Braced(name) {
      if Placeholder(p) == Braced(name) {
        BracedInjective(PlaceholderName(p), name);
      }
    }
    BracedIsPlaceholder(name);
    ForeignPlaceholderIsKept(Braced(name), w, colour, fm);
  }

  /** The name the usage text advertises for the local time,
      `{observation_time_local}`, is not the one the local-time pass replaces
      (`{observation_localtime}`), so it comes out unchanged. */
  lemma AdvertisedLocalTimeIsNotReplaced(w: Metar, colour: bool, fm: Formats)
    requires Valid(w)
    ensures Render(Braced("observation_time_local"), w, colour, fm) == Braced("observation_time_local")
  {
    var name := "observation_time_local";
    forall p ensures PlaceholderName(p) != name {
      AdvertisedNamesAreNoPlaceholders(p);
    }
    assert '{' !in name && '}' !in name;
    ForeignNameIsKept(name, w, colour, fm);
  }

  /** The name the usage text advertises for the sky summary, `{sky_conditions}`, is
      not the one the sky pass replaces (`{sky_condition}`), so it comes out unchanged. */
  lemma AdvertisedSkySummaryIsNotReplaced(w: Metar, colour: bool, fm: Formats)
    requires Valid(w)
    ensures Render(Braced("sky_conditions"), w, colour, fm) == Braced("sky_conditions")
  {
    var name := "sky_conditions";
    forall p ensures PlaceholderName(p) != name {
      AdvertisedNamesAreNoPlaceholders(p);
    }
    assert '{' !in name && '}' !in name;
    ForeignNameIsKept(name, w, colour, fm);
  }

  /** Substituted text is itself scanned by the later passes: a raw report whose text
      is "{station_id}" renders `{raw_text}` as the station identifier. */
  lemma ReplacedTextIsReplacedAgain(w: Metar, colour: bool, fm: Formats)
    requires Valid(w) && w.rawText == "{station_id}" && BraceFree(w.stationId)
    ensures Render("{raw_text}", w, colour, fm) == w.stationId
  {
    FirstPassReplacesRawText(w, colour, fm);
    LaterPassesReplaceStationId(w, colour, fm);
  }

  /** After the first pass, `{station_id}` becomes the station identifier. */
  lemma LaterPassesReplaceStationId(w: Metar, colour: bool, fm: Formats)
    requires Valid(w) && BraceFree(w.stationId)
    ensures ApplyPasses("{station_id}", Passes[1..], w, colour, fm) == w.stationId
  {
    SecondPassIsStationId();
    var rest := Passes[1..];
    assert ValueOf(rest[0], w, colour, fm) == w.stationId;
    ApplySingle(rest, 0, w, colour, fm);
  }

  lemma SecondPassIsStationId()
    ensures Passes[1..][0] == Show(StationId) && Placeholder(Show(StationId)) == "{station_id}"
  {
    assert Placeholder(Show(StationId)) == "{station_id}";
  }

  lemma FirstPassReplacesRawText(w: Metar, colour: bool, fm: Formats)
    requires Valid(w) && |w.rawText| < BigBufSize
    ensures Render("{raw_text}", w, colour, fm) == ApplyPasses(w.rawText, Passes[1..], w, colour, fm)
  {
    var t := "{raw_text}";
    assert Passes[0] == Show(RawText) && Placeholder(Passes[0]) == t;
    ReplaceAllOfNeedle(t, w.rawText);
    StrReplaceWhenItFits(t, w.rawText, t, BigBufSize);
  }
}
