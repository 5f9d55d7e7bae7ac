/** xmlToMetar: from the METAR elements of a document to weather records. */
module Mapper {

  import opened Text
  import opened Record
  import opened Xml
  import Classify

  // ---------------------------------------------------------------------------
  // The attribute scan of one <sky_condition sky_cover="..." cloud_base_ft_agl="..."/>
  // ---------------------------------------------------------------------------

  /** The four sky slots of a record and how many of them hold a layer. */
  datatype SkyState = SkyState(slots: seq<SkyEntry>, count: nat)

  /** The attributes the scan reads before an attribute without a value stops it. */
  function ScannedPrefix(attrs: seq<Attr>): (p: seq<Attr>)
    ensures |p| <= |attrs| && p == attrs[..|p|]
    ensures forall k :: 0 <= k < |p| ==> p[k].value.Some?
    ensures |p| < |attrs| ==> attrs[|p|].value.None?
    decreases |attrs|
  {
    if |attrs| == 0 || attrs[0].value.None? then [] else [attrs[0]] + ScannedPrefix(attrs[1..])
  }

  /** The attributes that close a layer: a "CLR" cover, or a cloud base. */
  predicate ClosesLayer(a: Attr)
  {
    a.value.Some? && ((a.name == "sky_cover" && a.value.value == "CLR") || a.name == "cloud_base_ft_agl")
  }

  function CountClosing(attrs: seq<Attr>): nat
    decreases |attrs|
  {
    if |attrs| == 0 then 0 else (if ClosesLayer(attrs[0]) then 1 else 0) + CountClosing(attrs[1..])
  }

  /** The scan of metar.c: a `sky_cover` attribute writes the cover of the slot at
      `count` and moves to the next slot only when it is "CLR"; a `cloud_base_ft_agl`
      attribute writes the base of that slot and always moves on; other attributes
      are skipped. The scan ends at the first attribute without a value and once all
      four slots are used.
      So the count grows by one for every closing attribute read, capped at four;
      the layers already closed are never touched, and no slot past the one the
      count ends on is written. */
  function ScanSky(slots: seq<SkyEntry>, count: nat, attrs: seq<Attr>): (r: SkyState)
    requires |slots| == SkySlots && count <= SkySlots
    ensures |r.slots| == SkySlots && count <= r.count <= SkySlots
    ensures r.count == Min(SkySlots, count + CountClosing(ScannedPrefix(attrs)))
    ensures forall k :: 0 <= k < count ==> r.slots[k] == slots[k]
    ensures forall k :: r.count < k < SkySlots ==> r.slots[k] == slots[k]
    ensures count == SkySlots ==> r == SkyState(slots, count)
    decreases |attrs|
  {
    if |attrs| == 0 || attrs[0].value.None? || count >= SkySlots then SkyState(slots, count)
    else
      var a := attrs[0];
      var v := a.value.value;
      ScannedStep(attrs);
      if a.name == "sky_cover" then
        var cover := Classify.ParseCover(v);
        var slots' := slots[count := slots[count].(skyCover := cover)];
        if cover == CLR then ScanSky(slots', count + 1, attrs[1..])
        else ScanSky(slots', count, attrs[1..])
      else if a.name == "cloud_base_ft_agl" then
        ScanSky(slots[count := slots[count].(cloudBaseFtAgl := AtoI(v))], count + 1, attrs[1..])
      else
        ScanSky(slots, count, attrs[1..])
  }

  /** One attribute with a value adds its own closing to the rest of the scan; a
      "sky_cover" closes exactly when it names CLR. */
  lemma ScannedStep(attrs: seq<Attr>)
    requires |attrs| > 0 && attrs[0].value.Some?
    ensures CountClosing(ScannedPrefix(attrs))
         == (if ClosesLayer(attrs[0]) then 1 else 0) + CountClosing(ScannedPrefix(attrs[1..]))
    ensures attrs[0].name == "sky_cover" ==>
      (ClosesLayer(attrs[0]) <==> Classify.ParseCover(attrs[0].value.value) == CLR)
  {
    var p := ScannedPrefix(attrs);
    assert p == [attrs[0]] + ScannedPrefix(attrs[1..]);
    assert p[1..] == ScannedPrefix(attrs[1..]);
    Classify.CoverCodeRoundTrip(CLR, attrs[0].value.value);
  }

  /** Attributes the scan reads without closing a layer: each has a value and is
      neither a "CLR" cover nor a cloud base. */
  predicate OpenRun(run: seq<Attr>)
  {
    forall k :: 0 <= k < |run| ==> run[k].value.Some? && !ClosesLayer(run[k])
  }

  /** The cover the last `sky_cover` of `run` names, or `dflt` when it has none. */
  function LastCover(run: seq<Attr>, dflt: SkyCover): SkyCover
    requires forall k :: 0 <= k < |run| ==> run[k].value.Some?
    decreases |run|
  {
    if |run| == 0 then dflt
    else LastCover(run[1..], if run[0].name == "sky_cover" then Classify.ParseCover(run[0].value.value) else dflt)
  }

  /** The layer a closing attribute completes in slot `e` after the open run `run`:
      a cloud base stores its atoi value under the last cover the run named (the slot's
      own cover if it named none); a "CLR" cover stores CLR and leaves the base the slot
      held, the -1 of init_metar in a fresh record. */
  function ClosedLayer(e: SkyEntry, run: seq<Attr>, closer: Attr): SkyEntry
    requires forall k :: 0 <= k < |run| ==> run[k].value.Some?
    requires ClosesLayer(closer)
  {
    if closer.name == "cloud_base_ft_agl" then SkyEntry(LastCover(run, e.skyCover), AtoI(closer.value.value))
    else SkyEntry(CLR, e.cloudBaseFtAgl)
  }

  /** An open run only rewrites the cover of the current slot, to the last cover it
      names, and leaves the count where it was. */
  lemma {:induction false} ScanOpenRun(slots: seq<SkyEntry>, count: nat, run: seq<Attr>, tail: seq<Attr>)
    requires |slots| == SkySlots && count < SkySlots && OpenRun(run)
    ensures ScanSky(slots, count, run + tail)
         == ScanSky(slots[count := slots[count].(skyCover := LastCover(run, slots[count].skyCover))], count, tail)
    decreases |run|
  {
    if |run| == 0 {
      assert run + tail == tail;
      assert slots[count := slots[count].(skyCover := slots[count].skyCover)] == slots;
    } else {
      var a := run[0];
      assert (run + tail)[0] == a && (run + tail)[1..] == run[1..] + tail;
      assert OpenRun(run[1..]) by {
        assert forall k :: 0 <= k < |run[1..]| ==> run[1..][k] == run[k + 1];
      }
      if a.name == "sky_cover" {
        var cover := Classify.ParseCover(a.value.value);
        assert cover != CLR by {
          if cover == CLR { Classify.CoverCodeRoundTrip(CLR, a.value.value); }
        }
        var slots' := slots[count := slots[count].(skyCover := cover)];
        ScanOpenRun(slots', count, run[1..], tail);
        assert slots'[count := slots'[count].(skyCover := LastCover(run[1..], cover))]
            == slots[count := slots[count].(skyCover := LastCover(run, slots[count].skyCover))];
      } else {
        ScanOpenRun(slots, count, run[1..], tail);
      }
    }
  }

  /** One layer of the scan: an open run followed by a closing attribute fills the
      current slot with the layer they describe and moves to the next slot; the rest of
      the attributes are scanned from there. With ScanOpenRun for the trailing run and
      the stop at an attribute without a value, this gives every slot the scan writes. */
  lemma ScanSkyLayer(slots: seq<SkyEntry>, count: nat, run: seq<Attr>, closer: Attr, rest: seq<Attr>)
    requires |slots| == SkySlots && count < SkySlots && OpenRun(run) && ClosesLayer(closer)
    ensures ScanSky(slots, count, run + [closer] + rest)
         == ScanSky(slots[count := ClosedLayer(slots[count], run, closer)], count + 1, rest)
  {
    assert run + [closer] + rest == run + ([closer] + rest);
    ScanOpenRun(slots, count, run, [closer] + rest);
    var e := slots[count].(skyCover := LastCover(run, slots[count].skyCover));
    ScanCloser(slots[count := e], count, closer, rest);
    assert slots[count := e][count := ClosedLayer(e, [], closer)]
        == slots[count := ClosedLayer(slots[count], run, closer)];
  }

  /** A closing attribute completes the current slot and moves to the next. */
  lemma ScanCloser(slots: seq<SkyEntry>, count: nat, closer: Attr, rest: seq<Attr>)
    requires |slots| == SkySlots && count < SkySlots && ClosesLayer(closer)
    ensures ScanSky(slots, count, [closer] + rest)
         == ScanSky(slots[count := ClosedLayer(slots[count], [], closer)], count + 1, rest)
  {
    assert ([closer] + rest)[0] == closer && ([closer] + rest)[1..] == rest;
    if closer.name == "cloud_base_ft_agl" {
      assert slots[count := slots[count].(cloudBaseFtAgl := AtoI(closer.value.value))]
          == slots[count := ClosedLayer(slots[count], [], closer)];
    } else {
      assert slots[count := slots[count].(skyCover := CLR)]
          == slots[count := ClosedLayer(slots[count], [], closer)];
    }
  }

  /** A cover given without a base does not close its layer: when the next
      sky_condition element brings a cover and a base, both land in the same slot
      and the first cover is lost. */
  lemma CoverWithoutBaseIsOverwritten(slots: seq<SkyEntry>, count: nat, first: string, second: string, base: string)
    requires |slots| == SkySlots && count < SkySlots
    requires first != "CLR" && second != "CLR"
    ensures var s1 := ScanSky(slots, count, [Attr("sky_cover", Some(first))]);
            var s2 := ScanSky(s1.slots, s1.count,
                              [Attr("sky_cover", Some(second)), Attr("cloud_base_ft_agl", Some(base))]);
            && s1.count == count
            && s2.count == count + 1
            && s2.slots[count] == SkyEntry(Classify.ParseCover(second), AtoI(base))
  {
    var s1 := ScanSky(slots, count, [Attr("sky_cover", Some(first))]);
    var rest := [Attr("sky_cover", Some(second)), Attr("cloud_base_ft_agl", Some(base))];
    assert rest[1..] == [Attr("cloud_base_ft_agl", Some(base))];
    assert rest[1..][1..] == [];
  }

  /** An unrecognised cover text is stored as the unknown cover; it is not an error
      and does not close the layer. */
  lemma UnrecognisedCoverIsUnknown(slots: seq<SkyEntry>, count: nat, v: string)
    requires |slots| == SkySlots && count < SkySlots
    requires Classify.ParseCover(v) == UnknownCover
    ensures ScanSky(slots, count, [Attr("sky_cover", Some(v))])
         == SkyState(slots[count := slots[count].(skyCover := UnknownCover)], count)
  {
    assert v != "CLR";
  }

  // ---------------------------------------------------------------------------
  // The sub-elements of <quality_control_flags>
  // ---------------------------------------------------------------------------

  /** The sub-element of `quality_control_flags` that reports each flag. */
  function FlagElementName(f: QualityFlag): string
  {
    match f
    case Corrected => "corrected"
    case Auto => "auto"
    case AutoStation => "auto_station"
    case Maintenance => "maintenance_indicator"
    case NoSignal => "no_signal"
    case NoLightning => "lightning_sensor_off"
    case NoFreezing => "freezing_rain_sensor_off"
    case NoWeather => "present_weather_sensor_off"
  }

  /** A sub-element raises flag `f` when it has that flag's name and its text is
      "TRUE" in any mix of letter case. */
  predicate RaisesFlag(n: Node, f: QualityFlag)
  {
    Name(n) == FlagElementName(f) && EqualsIgnoreCase(Content(n), "TRUE")
  }

  lemma SetBitOne(flags: bv8, g: QualityFlag, f: QualityFlag)
    ensures HasFlag(flags | Bit(g), f) <==> HasFlag(flags, f) || f == g
  {
    match f
    case Corrected =>
    case Auto =>
    case AutoStation =>
    case Maintenance =>
    case NoSignal =>
    case NoLightning =>
    case NoFreezing =>
    case NoWeather =>
  }

  lemma SetBitSpec(flags: bv8, g: QualityFlag)
    ensures forall f :: HasFlag(flags | Bit(g), f) <==> HasFlag(flags, f) || f == g
  {
    forall f ensures HasFlag(flags | Bit(g), f) <==> HasFlag(flags, f) || f == g {
      SetBitOne(flags, g, f);
    }
  }

  /** The flag whose sub-element carries `name`, if any. */
  function NamedFlag(name: string): (r: Option<QualityFlag>)
    ensures forall f :: r == Some(f) <==> name == FlagElementName(f)
  {
    if name == "corrected" then Some(Corrected)
    else if name == "auto" then Some(Auto)
    else if name == "auto_station" then Some(AutoStation)
    else if name == "maintenance_indicator" then Some(Maintenance)
    else if name == "no_signal" then Some(NoSignal)
    else if name == "lightning_sensor_off" then Some(NoLightning)
    else if name == "freezing_rain_sensor_off" then Some(NoFreezing)
    else if name == "present_weather_sensor_off" then Some(NoWeather)
    else None
  }

  /** The flags after one sub-element: its text is compared with "TRUE" first, then
      its name picks the bit to set. */
  function RaiseFlag(flags: bv8, n: Node): (r: bv8)
    ensures forall f :: HasFlag(r, f) <==> HasFlag(flags, f) || RaisesFlag(n, f)
  {
    if !EqualsIgnoreCase(Content(n), "TRUE") then flags
    else
      match NamedFlag(Name(n))
      case Some(g) => SetBitSpec(flags, g); flags | Bit(g)
      case None => flags
  }

  /** The scan over the children of `quality_control_flags`: a flag ends up set
      exactly when it was set before or some child raises it. */
  function ScanQuality(flags: bv8, children: seq<Node>): (r: bv8)
    ensures forall f :: HasFlag(r, f) <==>
      (HasFlag(flags, f) || exists k :: 0 <= k < |children| && RaisesFlag(children[k], f))
    decreases |children|
  {
    if |children| == 0 then flags
    else
      var r := ScanQuality(RaiseFlag(flags, children[0]), children[1..]);
      ScanQualityStep(children);
      r
  }

  lemma ScanQualityStep(children: seq<Node>)
    requires |children| > 0
    ensures forall f ::
      (exists k :: 0 <= k < |children| && RaisesFlag(children[k], f)) <==>
      (RaisesFlag(children[0], f) || exists k :: 0 <= k < |children[1..]| && RaisesFlag(children[1..][k], f))
  {
    forall f
      ensures (exists k :: 0 <= k < |children| && RaisesFlag(children[k], f)) ==>
              RaisesFlag(children[0], f) || exists k :: 0 <= k < |children[1..]| && RaisesFlag(children[1..][k], f)
    {
      if exists k :: 0 <= k < |children| && RaisesFlag(children[k], f) {
        var k :| 0 <= k < |children| && RaisesFlag(children[k], f);
        if k > 0 {
          assert children[1..][k - 1] == children[k];
        }
      }
    }
  }

  // ---------------------------------------------------------------------------
  // The per-observation dispatch on element names
  // ---------------------------------------------------------------------------

  /** The fields in the order the source compares their element names with the
      child's name. */
  const Dispatch: seq<Field> := [
    SkyCondition, RawText, StationId, ObservationTime, Latitude, Longitude, TempC,
    DewpointC, WindDirDegrees, WindSpeedKt, WindGustKt, VisibilityStatuteMi, AltimInHg,
    SeaLevelPressureMb, QualityControlFlags, WxString, Category, ThreeHrPressureTendencyMb,
    MaxTC, MinTC, MaxT24hrC, MinT24hrC, PrecipIn, Pcp3hrIn, Pcp6hrIn, Pcp24hrIn, SnowIn,
    VertVisFt, ReportType, ElevationM]

  /** The first of `fs` whose element name is `name`. */
  function FirstNamed(fs: seq<Field>, name: string): (r: Option<Field>)
    ensures r.Some? ==> r.value in fs && FieldName(r.value) == name
    ensures r.None? ==> forall f :: f in fs ==> FieldName(f) != name
    decreases |fs|
  {
    if |fs| == 0 then None
    else if FieldName(fs[0]) == name then Some(fs[0])
    else FirstNamed(fs[1..], name)
  }

  /** The field an element name selects: the chain of exact comparisons in the source,
      in its order, with no match for any other name. */
  function FieldOf(name: string): (r: Option<Field>)
    ensures r.Some? ==> FieldName(r.value) == name
  {
    FirstNamed(Dispatch, name)
  }

  lemma EveryFieldDispatched(f: Field)
    ensures f in Dispatch
  {
  }

  /** Every field's own element name selects that field, and no other name selects
      anything: no earlier test in the chain catches a field's name, the names being
      distinct. */
  lemma FieldNameRecognised(f: Field, name: string)
    ensures FieldOf(FieldName(f)) == Some(f)
    ensures FieldOf(name).None? <==> forall g: Field :: FieldName(g) != name
  {
    EveryFieldDispatched(f);
    var r := FieldOf(FieldName(f));
    assert r.Some?;
    FieldNamesDistinct(f, r.value);
    if FieldOf(name).Some? {
      assert FieldName(FieldOf(name).value) == name;
    } else {
      forall g: Field ensures FieldName(g) != name {
        EveryFieldDispatched(g);
      }
    }
  }

  /** The field a child fills, if it is an element with a recognised name. */
  function FieldOfNode(n: Node): Option<Field>
  {
    if n.Element? then FieldOf(n.name) else None
  }

  /** A child element the dispatch acts on. */
  predicate IsField(n: Node)
  {
    FieldOfNode(n).Some?
  }

  /** How many layers a sky_condition child closes on its own. */
  function SkyClosing(n: Node): nat
  {
    if FieldOfNode(n) == Some(SkyCondition) then CountClosing(ScannedPrefix(n.attrs)) else 0
  }

  /** The fields an element overwrites, whatever they held: all but the sky layers and
      the flags, to which an element adds. */
  predicate Overwritten(f: Field)
  {
    !(f.SkyCondition? || f.QualityControlFlags?)
  }

  /** What the source stores for an element of field `f` with text `text`: the text cut
      to its buffer for the three strings (metar.c:1212, 1218, 1329), the enumeration
      the text names (1336-1344, 1405-1409), atoi for the `int` fields and atof for the
      `float` ones. The time is left to `parseTime`. */
  function Read(f: Field, text: string): Value
    requires Overwritten(f) && f != ObservationTime
  {
    if f == RawText then Chars(Truncate(text, RawTextMax))
    else if f == StationId then Chars(Truncate(text, StationIdMax))
    else if f == WxString then Chars(Truncate(text, WxStringMax))
    else if f == Category then FlightRule(Classify.ParseFlightCategory(text))
    else if f == ReportType then ReportKind(Classify.ParseMetarType(text))
    else if IsInteger(f) then Whole(AtoI(text))
    else Real(Atof(text))
  }

  /** The record with numeric or time field `f` read from `text`: the floats with atof,
      the integers with atoi and the time with `parseTime`, which stands for strptime
      with "%Y-%m-%dT%H:%M:%SZ" followed by timegm and is `None` when the text does not
      parse (the time then keeps its previous value). Nothing but that field changes. */
  function SetNumber(w: Metar, f: Field, text: string, parseTime: string -> Option<int>): (r: Metar)
    requires IsNumeric(f)
    ensures r.rawText == w.rawText && r.stationId == w.stationId && r.wxString == w.wxString
    ensures r.qualityControlFlags == w.qualityControlFlags
    ensures r.skyCondition == w.skyCondition && r.skyConditionCount == w.skyConditionCount
    ensures r.flightCategory == w.flightCategory && r.metarType == w.metarType
    ensures r.observationTime != w.observationTime ==>
      f == ObservationTime && parseTime(text) == Some(r.observationTime)
    ensures SameNumbersBut(w, r, f)
    ensures IsInteger(f) ==> Get(r, f) == Whole(AtoI(text))
    ensures !IsInteger(f) && f != ObservationTime ==> Get(r, f) == Real(Atof(text))
    ensures f == ObservationTime && parseTime(text).Some? ==> r.observationTime == parseTime(text).value
    ensures f == ObservationTime && parseTime(text).None? ==> r.observationTime == w.observationTime
  {
    if f == ObservationTime then
      match parseTime(text)
      case Some(t) => w.(observationTime := t)
      case None => w
    else if IsInteger(f) then SetWhole(w, f, AtoI(text))
    else SetReal(w, f, Atof(text))
  }

  /** The frame every numeric assignment keeps: the strings, the flags, the sky and the
      enumerations stay, and no other field loses its sentinel. */
  predicate KeepsOthers(w: Metar, r: Metar, f: Field)
  {
    && r.rawText == w.rawText && r.stationId == w.stationId && r.wxString == w.wxString
    && r.qualityControlFlags == w.qualityControlFlags
    && r.skyCondition == w.skyCondition && r.skyConditionCount == w.skyConditionCount
    && r.flightCategory == w.flightCategory && r.metarType == w.metarType
    && r.observationTime == w.observationTime
    && SameNumbersBut(w, r, f)
  }

  /** The numeric fields of two records agree, except perhaps field `f`. */
  predicate SameNumbersBut(a: Metar, b: Metar, f: Field)
  {
    && (!f.ObservationTime? ==> a.observationTime == b.observationTime)
    && (!f.Latitude? ==> a.latitude == b.latitude)
    && (!f.Longitude? ==> a.longitude == b.longitude)
    && (!f.TempC? ==> a.tempC == b.tempC)
    && (!f.DewpointC? ==> a.dewpointC == b.dewpointC)
    && (!f.WindDirDegrees? ==> a.windDirDegrees == b.windDirDegrees)
    && (!f.WindSpeedKt? ==> a.windSpeedKt == b.windSpeedKt)
    && (!f.WindGustKt? ==> a.windGustKt == b.windGustKt)
    && (!f.VisibilityStatuteMi? ==> a.visibilityStatuteMi == b.visibilityStatuteMi)
    && (!f.AltimInHg? ==> a.altimInHg == b.altimInHg)
    && (!f.SeaLevelPressureMb? ==> a.seaLevelPressureMb == b.seaLevelPressureMb)
    && (!f.ThreeHrPressureTendencyMb? ==> a.threeHrPressureTendencyMb == b.threeHrPressureTendencyMb)
    && (!f.MaxTC? ==> a.maxTC == b.maxTC)
    && (!f.MinTC? ==> a.minTC == b.minTC)
    && (!f.MaxT24hrC? ==> a.maxT24hrC == b.maxT24hrC)
    && (!f.MinT24hrC? ==> a.minT24hrC == b.minT24hrC)
    && (!f.PrecipIn? ==> a.precipIn == b.precipIn)
    && (!f.Pcp3hrIn? ==> a.pcp3hrIn == b.pcp3hrIn)
    && (!f.Pcp6hrIn? ==> a.pcp6hrIn == b.pcp6hrIn)
    && (!f.Pcp24hrIn? ==> a.pcp24hrIn == b.pcp24hrIn)
    && (!f.SnowIn? ==> a.snowIn == b.snowIn)
    && (!f.VertVisFt? ==> a.vertVisFt == b.vertVisFt)
    && (!f.ElevationM? ==> a.elevationM == b.elevationM)
  }

  /** A field outside the exception keeps its sentinel. */
  lemma SameNumbersButKeepAbsent(a: Metar, b: Metar, f: Field, g: Field)
    requires SameNumbersBut(a, b, f) && g != f && Absent(a, g)
    ensures Absent(b, g)
  {
  }

  /** Records equal outside the numeric field `f` agree on every other field. */
  lemma SameNumbersButGet(a: Metar, b: Metar, f: Field, g: Field)
    requires SameNumbersBut(a, b, f) && g != f
    requires a.rawText == b.rawText && a.stationId == b.stationId && a.wxString == b.wxString
    requires a.qualityControlFlags == b.qualityControlFlags
    requires a.skyCondition == b.skyCondition && a.skyConditionCount == b.skyConditionCount
    requires a.flightCategory == b.flightCategory && a.metarType == b.metarType
    ensures Get(b, g) == Get(a, g)
  {
  }

  /** An `int` field set to `n`. */
  function SetWhole(w: Metar, f: Field, n: int): (r: Metar)
    requires IsInteger(f)
    ensures Get(r, f) == Whole(n) && KeepsOthers(w, r, f)
  {
    match f
    case WindDirDegrees => w.(windDirDegrees := n)
    case WindSpeedKt => w.(windSpeedKt := n)
    case WindGustKt => w.(windGustKt := n)
    case VertVisFt => w.(vertVisFt := n)
  }

  /** A `float` field set to `m`. */
  function SetReal(w: Metar, f: Field, m: Measure): (r: Metar)
    requires IsNumeric(f) && !IsInteger(f) && f != ObservationTime
    ensures Get(r, f) == Real(m) && KeepsOthers(w, r, f)
  {
    match f
    case Latitude => w.(latitude := m)
    case Longitude => w.(longitude := m)
    case TempC => w.(tempC := m)
    case DewpointC => w.(dewpointC := m)
    case VisibilityStatuteMi => w.(visibilityStatuteMi := m)
    case AltimInHg => w.(altimInHg := m)
    case SeaLevelPressureMb => w.(seaLevelPressureMb := m)
    case ThreeHrPressureTendencyMb => w.(threeHrPressureTendencyMb := m)
    case MaxTC => w.(maxTC := m)
    case MinTC => w.(minTC := m)
    case MaxT24hrC => w.(maxT24hrC := m)
    case MinT24hrC => w.(minT24hrC := m)
    case PrecipIn => w.(precipIn := m)
    case Pcp3hrIn => w.(pcp3hrIn := m)
    case Pcp6hrIn => w.(pcp6hrIn := m)
    case Pcp24hrIn => w.(pcp24hrIn := m)
    case SnowIn => w.(snowIn := m)
    case ElevationM => w.(elevationM := m)
  }

  /** The numeric and time fields of two records agree. */
  predicate SameNumbers(a: Metar, b: Metar)
  {
    && a.observationTime == b.observationTime
    && a.latitude == b.latitude
    && a.longitude == b.longitude
    && a.tempC == b.tempC
    && a.dewpointC == b.dewpointC
    && a.windDirDegrees == b.windDirDegrees
    && a.windSpeedKt == b.windSpeedKt
    && a.windGustKt == b.windGustKt
    && a.visibilityStatuteMi == b.visibilityStatuteMi
    && a.altimInHg == b.altimInHg
    && a.seaLevelPressureMb == b.seaLevelPressureMb
    && a.threeHrPressureTendencyMb == b.threeHrPressureTendencyMb
    && a.maxTC == b.maxTC
    && a.minTC == b.minTC
    && a.maxT24hrC == b.maxT24hrC
    && a.minT24hrC == b.minT24hrC
    && a.precipIn == b.precipIn
    && a.pcp3hrIn == b.pcp3hrIn
    && a.pcp6hrIn == b.pcp6hrIn
    && a.pcp24hrIn == b.pcp24hrIn
    && a.snowIn == b.snowIn
    && a.vertVisFt == b.vertVisFt
    && a.elevationM == b.elevationM
  }

  lemma SameNumbersKeepAbsent(a: Metar, b: Metar, g: Field)
    requires SameNumbers(a, b) && Absent(a, g)
    ensures Absent(b, g)
  {
  }

  /** The record with text, sky, flag or enumeration field `f` read from `child`. The
      strings are cut to their buffers; a sky condition's attributes are scanned into
      the slots; the flags gain the ones the sub-elements raise. No numeric field
      changes. */
  function SetOther(w: Metar, f: Field, child: Node): (r: Metar)
    requires Valid(w) && !IsNumeric(f) && child.Element?
    ensures Valid(r) && SameNumbers(w, r)
    ensures r.stationId != w.stationId ==>
      f == StationId && r.stationId == Truncate(Content(child), StationIdMax)
    ensures r.rawText != w.rawText ==> f == RawText && r.rawText == Truncate(Content(child), RawTextMax)
    ensures r.wxString != w.wxString ==> f == WxString && r.wxString == Truncate(Content(child), WxStringMax)
    ensures r.qualityControlFlags != w.qualityControlFlags ==> f == QualityControlFlags
    ensures forall q :: HasFlag(w.qualityControlFlags, q) ==> HasFlag(r.qualityControlFlags, q)
    ensures f != SkyCondition ==> r.skyCondition == w.skyCondition && r.skyConditionCount == w.skyConditionCount
    ensures f == SkyCondition ==>
      r.skyConditionCount == Min(SkySlots, w.skyConditionCount + CountClosing(ScannedPrefix(child.attrs)))
    ensures r.skyCondition[..w.skyConditionCount] == Layers(w)
    ensures (r.skyCondition, r.skyConditionCount) != (w.skyCondition, w.skyConditionCount) ==>
      w.skyConditionCount < SkySlots
    ensures f == RawText ==> r.rawText == Truncate(Content(child), RawTextMax)
    ensures f == StationId ==> r.stationId == Truncate(Content(child), StationIdMax)
    ensures f == WxString ==> r.wxString == Truncate(Content(child), WxStringMax)
    ensures r.flightCategory == if f == Category then Classify.ParseFlightCategory(Content(child)) else w.flightCategory
    ensures r.metarType == if f == ReportType then Classify.ParseMetarType(Content(child)) else w.metarType
    ensures f == QualityControlFlags ==>
      r.qualityControlFlags == ScanQuality(w.qualityControlFlags, child.children)
    ensures f == SkyCondition ==>
      SkyState(r.skyCondition, r.skyConditionCount) == ScanSky(w.skyCondition, w.skyConditionCount, child.attrs)
  {
    var text := Content(child);
    match f
    case SkyCondition =>
      var s := ScanSky(w.skyCondition, w.skyConditionCount, child.attrs);
      w.(skyCondition := s.slots, skyConditionCount := s.count)
    case RawText => w.(rawText := Truncate(text, RawTextMax))
    case StationId => w.(stationId := Truncate(text, StationIdMax))
    case QualityControlFlags =>
      w.(qualityControlFlags := ScanQuality(w.qualityControlFlags, child.children))
    case WxString => w.(wxString := Truncate(text, WxStringMax))
    case Category => w.(flightCategory := Classify.ParseFlightCategory(text))
    case ReportType => w.(metarType := Classify.ParseMetarType(text))
  }

  /** One child of a METAR element applied to the record.
      Non-elements and unrecognised names change nothing; the strings are cut to
      their buffers; each field changes only under its own element name, so a numeric
      field keeps its sentinel under every other child; the time keeps its previous
      value when the text does not parse; layers already closed stay as they are, and
      once four are closed further sky conditions are dropped.
      The source tests the names in one chain; the names are distinct, so handing the
      numeric ones to SetNumber and the rest to SetOther selects the same branch. */
  function ApplyChild(w: Metar, child: Node, parseTime: string -> Option<int>): (r: Metar)
    requires Valid(w)
    ensures Valid(r)
    ensures r.skyConditionCount == Min(SkySlots, w.skyConditionCount + SkyClosing(child))
    ensures r.skyCondition[..w.skyConditionCount] == Layers(w)
  {
    match FieldOfNode(child)
    case None => w
    case Some(f) =>
      if IsNumeric(f) then SetNumber(w, f, Content(child), parseTime)
      else SetOther(w, f, child)
  }

  /** Each text field changes only under its own element, and then to the element's
      text cut to its buffer; the time changes only under `observation_time`, and
      only to a time the text parses to. */
  lemma ApplyChildTextFrames(w: Metar, child: Node, parseTime: string -> Option<int>)
    requires Valid(w)
    ensures var r := ApplyChild(w, child, parseTime);
      && (r.stationId != w.stationId ==>
          FieldOfNode(child) == Some(StationId) && r.stationId == Truncate(Content(child), StationIdMax))
      && (r.rawText != w.rawText ==>
          FieldOfNode(child) == Some(RawText) && r.rawText == Truncate(Content(child), RawTextMax))
      && (r.wxString != w.wxString ==>
          FieldOfNode(child) == Some(WxString) && r.wxString == Truncate(Content(child), WxStringMax))
      && (r.observationTime != w.observationTime ==>
          FieldOfNode(child) == Some(ObservationTime) && parseTime(Content(child)) == Some(r.observationTime))
  {
  }

  /** The flags change only under `quality_control_flags`, and never lose a flag. */
  lemma ApplyChildFlagFrames(w: Metar, child: Node, parseTime: string -> Option<int>)
    requires Valid(w)
    ensures var r := ApplyChild(w, child, parseTime);
      && (r.qualityControlFlags != w.qualityControlFlags ==> FieldOfNode(child) == Some(QualityControlFlags))
      && (forall q :: HasFlag(w.qualityControlFlags, q) ==> HasFlag(r.qualityControlFlags, q))
  {
  }

  /** The sky slots change only under `sky_condition` and only while a slot is free. */
  lemma ApplyChildSkyFrame(w: Metar, child: Node, parseTime: string -> Option<int>)
    requires Valid(w)
    ensures var r := ApplyChild(w, child, parseTime);
      (r.skyCondition, r.skyConditionCount) != (w.skyCondition, w.skyConditionCount) ==>
        FieldOfNode(child) == Some(SkyCondition) && w.skyConditionCount < SkySlots
  {
  }

  /** A numeric field keeps its sentinel under every child that is not its element. */
  lemma ApplyChildKeepsAbsent(w: Metar, child: Node, parseTime: string -> Option<int>, g: Field)
    requires Valid(w)
    requires Absent(w, g) && FieldOfNode(child) != Some(g)
    ensures Absent(ApplyChild(w, child, parseTime), g)
  {
    match FieldOfNode(child)
    case None =>
    case Some(f) =>
      if !IsNumeric(f) {
        SameNumbersKeepAbsent(w, ApplyChild(w, child, parseTime), g);
      } else {
        SameNumbersButKeepAbsent(w, ApplyChild(w, child, parseTime), f, g);
      }
  }

  /** The value `child` leaves in an overwritten field `f`: `None` unless the child is
      the field's element, and for the time also when its text does not parse. */
  function Written(child: Node, f: Field, parseTime: string -> Option<int>): Option<Value>
    requires Overwritten(f)
  {
    if FieldOfNode(child) != Some(f) then None
    else if f == ObservationTime then
      match parseTime(Content(child))
      case Some(t) => Some(Instant(t))
      case None => None
    else Some(Read(f, Content(child)))
  }

  /** A numeric element leaves every other field as it was. */
  lemma SetNumberKeeps(w: Metar, h: Field, text: string, parseTime: string -> Option<int>, f: Field)
    requires IsNumeric(h) && h != f
    ensures Get(SetNumber(w, h, text, parseTime), f) == Get(w, f)
  {
    SameNumbersButGet(w, SetNumber(w, h, text, parseTime), h, f);
  }

  /** A numeric element other than the time stores its text read as the field's
      type. */
  lemma SetNumberWrites(w: Metar, f: Field, text: string, parseTime: string -> Option<int>)
    requires IsNumeric(f) && f != ObservationTime
    ensures Get(SetNumber(w, f, text, parseTime), f) == Read(f, text)
  {
    if IsInteger(f) {
      ReadInteger(f, text);
    } else {
      ReadFloat(f, text);
    }
  }

  /** An integer field reads its text with atoi. */
  lemma ReadInteger(f: Field, text: string)
    requires IsInteger(f)
    ensures Read(f, text) == Whole(AtoI(text))
  {
  }

  /** A text or enumeration element stores its text read as the field's type. */
  lemma SetOtherWrites(w: Metar, f: Field, child: Node)
    requires Valid(w) && !IsNumeric(f) && Overwritten(f) && child.Element?
    ensures Get(SetOther(w, f, child), f) == Read(f, Content(child))
  {
  }

  /** A text, sky, flag or enumeration element leaves every other overwritten field as
      it was. */
  lemma SetOtherKeeps(w: Metar, h: Field, child: Node, f: Field)
    requires Valid(w) && !IsNumeric(h) && child.Element? && h != f && Overwritten(f)
    ensures Get(SetOther(w, h, child), f) == Get(w, f)
  {
  }

  /** The element named after an overwritten field stores its text read as that
      field's type; the time only when the text parses. */
  lemma ApplyChildWritesOwn(w: Metar, child: Node, parseTime: string -> Option<int>, f: Field)
    requires Valid(w) && Overwritten(f) && FieldOfNode(child) == Some(f)
    ensures var v := Written(child, f, parseTime);
      Get(ApplyChild(w, child, parseTime), f) == if v.Some? then v.value else Get(w, f)
  {
    if f == ObservationTime {
    } else if IsNumeric(f) {
      SetNumberWrites(w, f, Content(child), parseTime);
    } else {
      SetOtherWrites(w, f, child);
    }
  }

  /** Any other child leaves the field as it was. */
  lemma ApplyChildKeepsOther(w: Metar, child: Node, parseTime: string -> Option<int>, f: Field)
    requires Valid(w) && Overwritten(f) && FieldOfNode(child) != Some(f)
    ensures Get(ApplyChild(w, child, parseTime), f) == Get(w, f)
  {
    match FieldOfNode(child)
    case None =>
    case Some(h) =>
      if IsNumeric(h) {
        SetNumberKeeps(w, h, Content(child), parseTime, f);
      } else {
        SetOtherKeeps(w, h, child, f);
      }
  }

  /** One child sets an overwritten field to the value it writes there and leaves it
      alone otherwise: the element named after the field stores its text read as that
      field's type, any other child keeps the previous value. */
  lemma ApplyChildWritten(w: Metar, child: Node, parseTime: string -> Option<int>, f: Field)
    requires Valid(w) && Overwritten(f)
    ensures var v := Written(child, f, parseTime);
      Get(ApplyChild(w, child, parseTime), f) == if v.Some? then v.value else Get(w, f)
  {
    if FieldOfNode(child) == Some(f) {
      ApplyChildWritesOwn(w, child, parseTime, f);
    } else {
      ApplyChildKeepsOther(w, child, parseTime, f);
    }
  }

  function SkyClosingAll(children: seq<Node>): nat
    decreases |children|
  {
    if |children| == 0 then 0 else SkyClosing(children[0]) + SkyClosingAll(children[1..])
  }

  /** The children of a METAR element applied in document order. The record stays well
      formed and holds one layer per closing sky attribute up to four. */
  function ApplyChildren(w: Metar, children: seq<Node>, parseTime: string -> Option<int>): (r: Metar)
    requires Valid(w)
    ensures Valid(r)
    ensures r.skyConditionCount == Min(SkySlots, w.skyConditionCount + SkyClosingAll(children))
    ensures r.skyCondition[..w.skyConditionCount] == Layers(w)
    decreases |children|
  {
    if |children| == 0 then w
    else
      var w' := ApplyChild(w, children[0], parseTime);
      assert forall k :: 0 <= k < |children[1..]| ==> children[1..][k] == children[k + 1];
      var r := ApplyChildren(w', children[1..], parseTime);
      assert r.skyCondition[..w.skyConditionCount] == r.skyCondition[..w'.skyConditionCount][..w.skyConditionCount];
      r
  }

  /** Children that are not recognised fields leave the record untouched. */
  lemma {:induction false} ApplyChildrenIgnoresOthers(w: Metar, children: seq<Node>, parseTime: string -> Option<int>)
    requires Valid(w)
    requires forall k :: 0 <= k < |children| ==> !IsField(children[k])
    ensures ApplyChildren(w, children, parseTime) == w
    decreases |children|
  {
    if |children| > 0 {
      assert !IsField(children[0]);
      assert ApplyChild(w, children[0], parseTime) == w;
      assert forall k :: 0 <= k < |children[1..]| ==> children[1..][k] == children[k + 1];
      ApplyChildrenIgnoresOthers(w, children[1..], parseTime);
    }
  }

  /** One METAR element mapped to a record, starting from the defaults of init_metar. */
  function MapObservation(obs: Node, parseTime: string -> Option<int>): (r: Metar)
    ensures Valid(r)
    ensures r.skyConditionCount == Min(SkySlots, SkyClosingAll(Children(obs)))
  {
    ApplyChildren(InitMetar(), Children(obs), parseTime)
  }

  /** A METAR element without a recognised child maps to the record init_metar
      leaves. */
  lemma ObservationWithoutFieldsIsInit(obs: Node, parseTime: string -> Option<int>)
    requires forall k :: 0 <= k < |Children(obs)| ==> !IsField(Children(obs)[k])
    ensures MapObservation(obs, parseTime) == InitMetar()
  {
    InitMetarIsAbsent();
    ApplyChildrenIgnoresOthers(InitMetar(), Children(obs), parseTime);
  }

  /** A field whose element does not occur among the children keeps its sentinel. */
  lemma {:induction false} ApplyChildrenKeepsAbsent(w: Metar, children: seq<Node>, parseTime: string -> Option<int>, f: Field)
    requires Valid(w)
    requires Absent(w, f)
    requires forall k :: 0 <= k < |children| ==> FieldOfNode(children[k]) != Some(f)
    ensures Absent(ApplyChildren(w, children, parseTime), f)
    decreases |children|
  {
    if |children| > 0 {
      assert forall k :: 0 <= k < |children[1..]| ==> children[1..][k] == children[k + 1];
      ApplyChildKeepsAbsent(w, children[0], parseTime, f);
      ApplyChildrenKeepsAbsent(ApplyChild(w, children[0], parseTime), children[1..], parseTime, f);
    }
  }

  /** An observation without a given numeric or time element reports that field as
      absent: the sentinel init_metar put there survives the mapping. */
  lemma MissingElementIsAbsent(obs: Node, parseTime: string -> Option<int>, f: Field)
    requires IsNumeric(f)
    requires forall k :: 0 <= k < |Children(obs)| ==> Name(Children(obs)[k]) != FieldName(f)
    ensures Absent(MapObservation(obs, parseTime), f)
  {
    InitMetarIsAbsent();
    assert forall k :: 0 <= k < |Children(obs)| ==> FieldOfNode(Children(obs)[k]) != Some(f);
    ApplyChildrenKeepsAbsent(InitMetar(), Children(obs), parseTime, f);
  }

  /** The child an overwritten field other than the time takes its value from is the
      element carrying the field's name, and the value is that element's text read as
      the field's type. */
  lemma WrittenByName(child: Node, f: Field, parseTime: string -> Option<int>)
    requires Overwritten(f) && f != ObservationTime
    ensures Written(child, f, parseTime).Some? <==> child.Element? && child.name == FieldName(f)
    ensures Written(child, f, parseTime).Some? ==> Written(child, f, parseTime).value == Read(f, Content(child))
  {
    FieldNameRecognised(f, Name(child));
  }

  /** The last value present in `vs`, if any. */
  function LastSome(vs: seq<Option<Value>>): Option<Value>
    decreases |vs|
  {
    if |vs| == 0 then None
    else
      var later := LastSome(vs[1..]);
      if later.Some? then later else vs[0]
  }

  /** LastSome is the entry present at `i` when none after it is. */
  lemma {:induction false} LastSomeIsLast(vs: seq<Option<Value>>, i: nat)
    requires i < |vs| && vs[i].Some?
    requires forall j :: i < j < |vs| ==> vs[j].None?
    ensures LastSome(vs) == vs[i]
    decreases |vs|
  {
    if i == 0 {
      LastSomeNone(vs[1..]);
    } else {
      LastSomeIsLast(vs[1..], i - 1);
    }
  }

  /** LastSome finds nothing exactly when every entry is absent. */
  lemma {:induction false} LastSomeNone(vs: seq<Option<Value>>)
    ensures LastSome(vs).None? <==> forall k :: 0 <= k < |vs| ==> vs[k].None?
    decreases |vs|
  {
    if |vs| > 0 {
      LastSomeNone(vs[1..]);
      assert forall k :: 1 <= k < |vs| ==> vs[k] == vs[1..][k - 1];
    }
  }

  /** What each child writes into field `f`, in document order. */
  function Writes(children: seq<Node>, f: Field, parseTime: string -> Option<int>): (vs: seq<Option<Value>>)
    requires Overwritten(f)
    ensures |vs| == |children|
    ensures forall k :: 0 <= k < |children| ==> vs[k] == Written(children[k], f, parseTime)
    decreases |children|
  {
    if |children| == 0 then []
    else [Written(children[0], f, parseTime)] + Writes(children[1..], f, parseTime)
  }

  /** Applying the children leaves in an overwritten field the value its last writer
      wrote, or the previous value when no child writes it: later elements overwrite
      earlier ones. */
  lemma {:induction false} ApplyChildrenWritten(w: Metar, children: seq<Node>, parseTime: string -> Option<int>, f: Field)
    requires Valid(w) && Overwritten(f)
    ensures var v := LastSome(Writes(children, f, parseTime));
      Get(ApplyChildren(w, children, parseTime), f) == if v.Some? then v.value else Get(w, f)
    decreases |children|
  {
    if |children| > 0 {
      var w' := ApplyChild(w, children[0], parseTime);
      assert Writes(children, f, parseTime)[1..] == Writes(children[1..], f, parseTime);
      ApplyChildWritten(w, children[0], parseTime, f);
      ApplyChildrenWritten(w', children[1..], parseTime, f);
    }
  }

  /** In a mapped observation an overwritten field holds the value of its last writer:
      for every field but the time, the last child element carrying the field's name. */
  lemma ObservationTakesLastWritten(obs: Node, parseTime: string -> Option<int>, f: Field, i: nat)
    requires Overwritten(f) && i < |Children(obs)| && Written(Children(obs)[i], f, parseTime).Some?
    requires forall j :: i < j < |Children(obs)| ==> Written(Children(obs)[j], f, parseTime).None?
    ensures Get(MapObservation(obs, parseTime), f) == Written(Children(obs)[i], f, parseTime).value
  {
    InitMetarIsAbsent();
    LastSomeIsLast(Writes(Children(obs), f, parseTime), i);
    ApplyChildrenWritten(InitMetar(), Children(obs), parseTime, f);
  }

  /** An overwritten field no child writes keeps the value init_metar gave it. */
  lemma ObservationKeepsDefault(obs: Node, parseTime: string -> Option<int>, f: Field)
    requires Overwritten(f)
    requires forall k :: 0 <= k < |Children(obs)| ==> Written(Children(obs)[k], f, parseTime).None?
    ensures Get(MapObservation(obs, parseTime), f) == Get(InitMetar(), f)
  {
    InitMetarIsAbsent();
    LastSomeNone(Writes(Children(obs), f, parseTime));
    ApplyChildrenWritten(InitMetar(), Children(obs), parseTime, f);
  }

  /** A `quality_control_flags` child with a sub-element that raises flag `q`. */
  predicate FlagChildRaises(child: Node, q: QualityFlag)
  {
    && FieldOfNode(child) == Some(QualityControlFlags)
    && exists m :: 0 <= m < |Children(child)| && RaisesFlag(Children(child)[m], q)
  }

  /** One child raises exactly the flags its sub-elements report, and clears none. */
  lemma ApplyChildFlags(w: Metar, child: Node, parseTime: string -> Option<int>, q: QualityFlag)
    requires Valid(w)
    ensures HasFlag(ApplyChild(w, child, parseTime).qualityControlFlags, q) <==>
      HasFlag(w.qualityControlFlags, q) || FlagChildRaises(child, q)
  {
    var r := ApplyChild(w, child, parseTime);
    if FieldOfNode(child) == Some(QualityControlFlags) {
      assert r.qualityControlFlags == ScanQuality(w.qualityControlFlags, Children(child));
    } else {
      ApplyChildFlagFrames(w, child, parseTime);
    }
  }

  /** The flags accumulate over the children: a flag is set after them exactly when it
      was set before or a sub-element of some `quality_control_flags` child raises it. */
  lemma {:induction false} ApplyChildrenFlags(w: Metar, children: seq<Node>, parseTime: string -> Option<int>, q: QualityFlag)
    requires Valid(w)
    ensures HasFlag(ApplyChildren(w, children, parseTime).qualityControlFlags, q) <==>
      HasFlag(w.qualityControlFlags, q) || exists k :: 0 <= k < |children| && FlagChildRaises(children[k], q)
    decreases |children|
  {
    if |children| > 0 {
      var w' := ApplyChild(w, children[0], parseTime);
      ApplyChildFlags(w, children[0], parseTime, q);
      ApplyChildrenFlags(w', children[1..], parseTime, q);
      assert forall k :: 1 <= k < |children| ==> children[k] == children[1..][k - 1];
    }
  }

  /** A mapped observation carries exactly the flags its `quality_control_flags`
      elements report, whichever of them reports each. */
  lemma ObservationFlags(obs: Node, parseTime: string -> Option<int>, q: QualityFlag)
    ensures HasFlag(MapObservation(obs, parseTime).qualityControlFlags, q) <==>
      exists k :: 0 <= k < |Children(obs)| && FlagChildRaises(Children(obs)[k], q)
  {
    InitMetarIsAbsent();
    assert !HasFlag(0, q);
    ApplyChildrenFlags(InitMetar(), Children(obs), parseTime, q);
  }

  /** The sky slots after the `sky_condition` children among `children`, each scanned
      on from where the previous one left the slots and the count. */
  function SkyAfter(s: SkyState, children: seq<Node>): (r: SkyState)
    requires |s.slots| == SkySlots && s.count <= SkySlots
    ensures |r.slots| == SkySlots && r.count <= SkySlots
    decreases |children|
  {
    if |children| == 0 then s
    else if FieldOfNode(children[0]) == Some(SkyCondition) then
      SkyAfter(ScanSky(s.slots, s.count, children[0].attrs), children[1..])
    else SkyAfter(s, children[1..])
  }

  /** One child scans its attributes into the slots if it is a `sky_condition` and
      leaves them alone otherwise. */
  lemma ApplyChildSky(w: Metar, child: Node, parseTime: string -> Option<int>)
    requires Valid(w)
    ensures var r := ApplyChild(w, child, parseTime);
      SkyState(r.skyCondition, r.skyConditionCount)
        == if FieldOfNode(child) == Some(SkyCondition) then ScanSky(w.skyCondition, w.skyConditionCount, child.attrs)
           else SkyState(w.skyCondition, w.skyConditionCount)
  {
    if FieldOfNode(child) != Some(SkyCondition) {
      ApplyChildSkyFrame(w, child, parseTime);
    }
  }

  /** The sky slots after the children are those the `sky_condition` children scan, in
      document order, from the slots before them. */
  lemma {:induction false} ApplyChildrenSky(w: Metar, children: seq<Node>, parseTime: string -> Option<int>)
    requires Valid(w)
    ensures var r := ApplyChildren(w, children, parseTime);
      SkyState(r.skyCondition, r.skyConditionCount) == SkyAfter(SkyState(w.skyCondition, w.skyConditionCount), children)
    decreases |children|
  {
    if |children| > 0 {
      ApplyChildSky(w, children[0], parseTime);
      ApplyChildrenSky(ApplyChild(w, children[0], parseTime), children[1..], parseTime);
    }
  }

  /** A mapped observation's layers are those its `sky_condition` elements scan into
      the empty slots of init_metar. */
  lemma ObservationSky(obs: Node, parseTime: string -> Option<int>)
    ensures var r := MapObservation(obs, parseTime);
      SkyState(r.skyCondition, r.skyConditionCount) == SkyAfter(SkyState(InitMetar().skyCondition, 0), Children(obs))
  {
    InitMetarIsAbsent();
    ApplyChildrenSky(InitMetar(), Children(obs), parseTime);
  }

  /** A float element whose text atof reads as NaN ("nan", "-NaN", ...) leaves its field
      as absent as a missing element would, when no later element of that name follows. */
  lemma NaNElementIsAbsent(obs: Node, parseTime: string -> Option<int>, f: Field, i: nat)
    requires IsNumeric(f) && !IsInteger(f) && f != ObservationTime
    requires i < |Children(obs)| && Children(obs)[i].Element? && Children(obs)[i].name == FieldName(f)
    requires ReadsAsNaN(Content(Children(obs)[i]))
    requires forall j :: i < j < |Children(obs)| ==> Name(Children(obs)[j]) != FieldName(f)
    ensures Absent(MapObservation(obs, parseTime), f)
  {
    WrittenByName(Children(obs)[i], f, parseTime);
    forall j | i < j < |Children(obs)|
      ensures Written(Children(obs)[j], f, parseTime).None?
    {
      WrittenByName(Children(obs)[j], f, parseTime);
    }
    ObservationTakesLastWritten(obs, parseTime, f, i);
    ReadFloat(f, Content(Children(obs)[i]));
    RealNaNIsAbsent(MapObservation(obs, parseTime), f);
  }

  /** A float field reads its text with atof. */
  lemma ReadFloat(f: Field, text: string)
    requires IsNumeric(f) && !IsInteger(f) && f != ObservationTime
    ensures Read(f, text) == Real(Atof(text))
  {
  }

  // ---------------------------------------------------------------------------
  // The whole node set
  // ---------------------------------------------------------------------------

  predicate IsMetarElement(n: Node)
  {
    n.Element? && n.name == "METAR"
  }

  /** The METAR elements of `nodes`, in order. */
  function MetarElements(nodes: seq<Node>): (els: seq<Node>)
    ensures |els| <= |nodes|
    ensures forall k :: 0 <= k < |els| ==> IsMetarElement(els[k])
    decreases |nodes|
  {
    if |nodes| == 0 then []
    else
      var last := nodes[|nodes| - 1];
      MetarElements(nodes[..|nodes| - 1]) + if IsMetarElement(last) then [last] else []
  }

  /** A node set made only of METAR elements loses nothing to the filter. */
  lemma {:induction false} MetarElementsOfMetarElements(nodes: seq<Node>)
    requires forall k :: 0 <= k < |nodes| ==> IsMetarElement(nodes[k])
    ensures MetarElements(nodes) == nodes
    decreases |nodes|
  {
    if |nodes| > 0 {
      var init := nodes[..|nodes| - 1];
      forall k | 0 <= k < |init| ensures IsMetarElement(init[k]) {
        assert init[k] == nodes[k];
      }
      MetarElementsOfMetarElements(init);
      assert nodes == init + [nodes[|nodes| - 1]];
    }
  }

  /** One record per METAR element of `nodes`, in order. */
  function MapReports(nodes: seq<Node>, parseTime: string -> Option<int>): (rs: seq<Metar>)
    ensures |rs| <= |nodes|
    ensures forall k :: 0 <= k < |rs| ==> Valid(rs[k])
  {
    var els := MetarElements(nodes);
    seq(|els|, k requires 0 <= k < |els| => MapObservation(els[k], parseTime))
  }

  /** One more node adds its record when it is a METAR element and nothing otherwise. */
  lemma MapReportsStep(nodes: seq<Node>, i: nat, parseTime: string -> Option<int>)
    requires i < |nodes|
    ensures MapReports(nodes[..i + 1], parseTime) ==
      MapReports(nodes[..i], parseTime) + if IsMetarElement(nodes[i]) then [MapObservation(nodes[i], parseTime)] else []
  {
    assert nodes[..i + 1][..i] == nodes[..i];
    var before := MetarElements(nodes[..i]);
    assert MetarElements(nodes[..i + 1]) == before + if IsMetarElement(nodes[i]) then [nodes[i]] else [];
  }

  /** xmlToMetar over the outcome of parsing and querying the document. The code is
      -1, -2 or -3 for a document that did not parse, a context or an expression
      that could not be built; 0 for an empty node set; and otherwise the number of
      nodes visited, the smaller of the node count and the capacity `count`. One
      well-formed record is produced for each METAR element visited, in order. */
  method XmlToMetar(q: QueryResult, count: nat, parseTime: string -> Option<int>)
    returns (code: int, reports: seq<Metar>)
    ensures code == -1 <==> q.NoDocument?
    ensures code == -2 <==> q.NoContext?
    ensures code == -3 <==> q.NoExpression?
    ensures q.NodeSet? && |q.nodes| == 0 ==> code == 0
    ensures q.NodeSet? && |q.nodes| > 0 ==> code == Min(|q.nodes|, count)
    ensures code <= 0 ==> reports == []
    ensures code > 0 ==> reports == MapReports(q.nodes[..code], parseTime)
    ensures |reports| <= if code > 0 then code else 0
    ensures forall k :: 0 <= k < |reports| ==> Valid(reports[k])
  {
    reports := [];
    match q
    case NoDocument => return -1, reports;
    case NoContext => return -2, reports;
    case NoExpression => return -3, reports;
    case NodeSet(nodes) =>
      if |nodes| == 0 {
        return 0, reports;
      }
      var i := 0;
      while i < |nodes| && i < count
        invariant 0 <= i <= |nodes| && i <= count
        invariant reports == MapReports(nodes[..i], parseTime)
        invariant forall k :: 0 <= k < |reports| ==> Valid(reports[k])
      {
        if IsMetarElement(nodes[i]) {
          reports := reports + [MapObservation(nodes[i], parseTime)];
        }
        MapReportsStep(nodes, i, parseTime);
        i := i + 1;
      }
      code := i;
  }

  /** When every selected node is a METAR element, record k is the mapping of node k. */
  lemma MapReportsOfMetarElements(nodes: seq<Node>, parseTime: string -> Option<int>)
    requires forall k :: 0 <= k < |nodes| ==> IsMetarElement(nodes[k])
    ensures |MapReports(nodes, parseTime)| == |nodes|
    ensures forall k :: 0 <= k < |nodes| ==> MapReports(nodes, parseTime)[k] == MapObservation(nodes[k], parseTime)
  {
    MetarElementsOfMetarElements(nodes);
  }
}
