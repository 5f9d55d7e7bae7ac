/** The weather record (`struct metar`) and its "absent" defaults. */
module Record {

  import opened Text

  datatype SkyCover = SKC | CLR | CAVOK | FEW | SCT | BKN | OVC | OVX | UnknownCover

  datatype FlightCategory = VFR | MVFR | IFR | LIFR | UnknownCategory

  datatype MetarType = METAR | SPECI | UnknownType

  datatype SkyEntry = SkyEntry(skyCover: SkyCover, cloudBaseFtAgl: int)

  /** A `float` field: NaN, or the value atof gives for the element text it was read
      from, when that is not NaN. The text is kept; the conversion to a binary float is
      not modelled. */
  datatype Measure = NaN | Reading(text: string)

  /** The eight station-health bits of `quality_control_flags`, in bit order. */
  datatype QualityFlag =
    | Corrected | Auto | AutoStation | Maintenance
    | NoSignal | NoLightning | NoFreezing | NoWeather

  const QualityFlags: seq<QualityFlag> :=
    [Corrected, Auto, AutoStation, Maintenance, NoSignal, NoLightning, NoFreezing, NoWeather]

  /** The METAR_QUALITY_* mask of a flag. */
  function Bit(f: QualityFlag): bv8
  {
    match f
    case Corrected => 0x01
    case Auto => 0x02
    case AutoStation => 0x04
    case Maintenance => 0x08
    case NoSignal => 0x10
    case NoLightning => 0x20
    case NoFreezing => 0x40
    case NoWeather => 0x80
  }

  predicate HasFlag(flags: bv8, f: QualityFlag)
  {
    flags & Bit(f) == Bit(f)
  }

  /** Capacity of `raw_text`, `wx_string` and `station_id` without their terminators. */
  const RawTextMax: nat := 511
  const WxStringMax: nat := 63
  const StationIdMax: nat := 4
  /** Capacity of the `sky_condition` array. */
  const SkySlots: nat := 4

  datatype Metar = Metar(
    rawText: string,
    stationId: string,
    observationTime: int,
    latitude: Measure,
    longitude: Measure,
    tempC: Measure,
    dewpointC: Measure,
    windDirDegrees: int,
    windSpeedKt: int,
    windGustKt: int,
    visibilityStatuteMi: Measure,
    altimInHg: Measure,
    seaLevelPressureMb: Measure,
    qualityControlFlags: bv8,
    wxString: string,
    skyCondition: seq<SkyEntry>,
    skyConditionCount: nat,
    flightCategory: FlightCategory,
    threeHrPressureTendencyMb: Measure,
    maxTC: Measure,
    minTC: Measure,
    maxT24hrC: Measure,
    minT24hrC: Measure,
    precipIn: Measure,
    pcp3hrIn: Measure,
    pcp6hrIn: Measure,
    pcp24hrIn: Measure,
    snowIn: Measure,
    vertVisFt: int,
    metarType: MetarType,
    elevationM: Measure)

  /** The shape every record keeps: a four-slot sky array, a count that fits it, and
      strings that fit their fixed buffers. */
  predicate Valid(w: Metar)
  {
    && |w.skyCondition| == SkySlots
    && w.skyConditionCount <= SkySlots
    && |w.rawText| <= RawTextMax
    && |w.stationId| <= StationIdMax
    && |w.wxString| <= WxStringMax
  }

  /** The cloud layers the record reports, bottom to top. */
  function Layers(w: Metar): seq<SkyEntry>
    requires Valid(w)
  {
    w.skyCondition[..w.skyConditionCount]
  }

  /** The contents of an unused sky slot. */
  const NoLayer: SkyEntry := SkyEntry(UnknownCover, -1)

  /** The record `init_metar` leaves: every field at its "absent" value. */
  function InitMetar(): Metar
  {
    Metar(
      rawText := "",
      stationId := "",
      observationTime := 0,
      latitude := NaN,
      longitude := NaN,
      tempC := NaN,
      dewpointC := NaN,
      windDirDegrees := -1,
      windSpeedKt := -1,
      windGustKt := -1,
      visibilityStatuteMi := NaN,
      altimInHg := NaN,
      seaLevelPressureMb := NaN,
      qualityControlFlags := 0,
      wxString := "",
      skyCondition := [NoLayer, NoLayer, NoLayer, NoLayer],
      skyConditionCount := 0,
      flightCategory := UnknownCategory,
      threeHrPressureTendencyMb := NaN,
      maxTC := NaN,
      minTC := NaN,
      maxT24hrC := NaN,
      minT24hrC := NaN,
      precipIn := NaN,
      pcp3hrIn := NaN,
      pcp6hrIn := NaN,
      pcp24hrIn := NaN,
      snowIn := NaN,
      vertVisFt := -1,
      metarType := UnknownType,
      elevationM := NaN)
  }

  /** The child elements of a METAR element that fill a record, in the order the source
      tests them. `Category` is `flight_category` and `ReportType` is `metar_type`. */
  datatype Field =
    | SkyCondition | RawText | StationId | ObservationTime | Latitude | Longitude | TempC
    | DewpointC | WindDirDegrees | WindSpeedKt | WindGustKt | VisibilityStatuteMi
    | AltimInHg | SeaLevelPressureMb | QualityControlFlags | WxString | Category
    | ThreeHrPressureTendencyMb | MaxTC | MinTC | MaxT24hrC | MinT24hrC | PrecipIn
    | Pcp3hrIn | Pcp6hrIn | Pcp24hrIn | SnowIn | VertVisFt | ReportType | ElevationM

  /** The element name of each field. */
  function FieldName(f: Field): string
  {
    match f
    case SkyCondition => "sky_condition"
    case RawText => "raw_text"
    case StationId => "station_id"
    case ObservationTime => "observation_time"
    case Latitude => "latitude"
    case Longitude => "longitude"
    case TempC => "temp_c"
    case DewpointC => "dewpoint_c"
    case WindDirDegrees => "wind_dir_degrees"
    case WindSpeedKt => "wind_speed_kt"
    case WindGustKt => "wind_gust_kt"
    case VisibilityStatuteMi => "visibility_statute_mi"
    case AltimInHg => "altim_in_hg"
    case SeaLevelPressureMb => "sea_level_pressure_mb"
    case QualityControlFlags => "quality_control_flags"
    case WxString => "wx_string"
    case Category => "flight_category"
    case ThreeHrPressureTendencyMb => "three_hr_pressure_tendency_mb"
    case MaxTC => "maxT_c"
    case MinTC => "minT_c"
    case MaxT24hrC => "maxT24hr_c"
    case MinT24hrC => "minT24hr_c"
    case PrecipIn => "precip_in"
    case Pcp3hrIn => "pcp3hr_in"
    case Pcp6hrIn => "pcp6hr_in"
    case Pcp24hrIn => "pcp24hr_in"
    case SnowIn => "snow_in"
    case VertVisFt => "vert_vis_ft"
    case ReportType => "metar_type"
    case ElevationM => "elevation_m"
  }

  /** Enough of a name to tell the element names apart: its length and its second
      and fourth characters, packed into one number. The key and its written-out
      table below serve only to prove the names distinct by comparing numbers rather
      than strings; nothing in the model reads them otherwise. */
  function PackedKey(n: string): int
  {
    if |n| > 3 then |n| * 65536 + n[1] as int * 256 + n[3] as int else -1
  }

  /** The packed key of each field's element name, written out. */
  function NameKey(f: Field): int
  {
    match f
    case SkyCondition => 879455
    case RawText => 549215
    case StationId => 685172
    case ObservationTime => 1073765
    case Latitude => 549225
    case Longitude => 618343
    case TempC => 419184
    case DewpointC => 681328
    case WindDirDegrees => 1075556
    case WindSpeedKt => 878948
    case WindGustKt => 813412
    case VisibilityStatuteMi => 1403241
    case AltimInHg => 748649
    case SeaLevelPressureMb => 1402207
    case QualityControlFlags => 1406316
    case WxString => 620659
    case Category => 1010791
    case ThreeHrPressureTendencyMb => 1927269
    case MaxTC => 418132
    case MinTC => 420180
    case MaxT24hrC => 680276
    case MinT24hrC => 682324
    case PrecipIn => 619107
    case Pcp3hrIn => 615219
    case Pcp6hrIn => 615222
    case Pcp24hrIn => 680754
    case SnowIn => 487031
    case VertVisFt => 746868
    case ReportType => 681313
    case ElevationM => 748662
  }

  /** The written-out key of a field is the packed key of its element name. */
  lemma NameKeyOfName(f: Field)
    ensures NameKey(f) == PackedKey(FieldName(f))
  {
    if f.SkyCondition? || f.RawText? || f.StationId? || f.ObservationTime? ||
       f.Latitude? || f.Longitude? || f.TempC? || f.DewpointC? {
      NameKeyOfNameIn0(f);
    } else if f.WindDirDegrees? || f.WindSpeedKt? || f.WindGustKt? ||
              f.VisibilityStatuteMi? || f.AltimInHg? || f.SeaLevelPressureMb? ||
              f.QualityControlFlags? {
      NameKeyOfNameIn1(f);
    } else if f.WxString? || f.Category? || f.ThreeHrPressureTendencyMb? || f.MaxTC? ||
              f.MinTC? || f.MaxT24hrC? || f.MinT24hrC? || f.PrecipIn? {
      NameKeyOfNameIn2(f);
    } else {
      NameKeyOfNameIn3(f);
    }
  }

  lemma NameKeyOfNameIn0(f: Field)
    requires f.SkyCondition? || f.RawText? || f.StationId? || f.ObservationTime? ||
             f.Latitude? || f.Longitude? || f.TempC? || f.DewpointC?
    ensures NameKey(f) == PackedKey(FieldName(f))
  {
  }

  lemma NameKeyOfNameIn1(f: Field)
    requires f.WindDirDegrees? || f.WindSpeedKt? || f.WindGustKt? ||
             f.VisibilityStatuteMi? || f.AltimInHg? || f.SeaLevelPressureMb? ||
             f.QualityControlFlags?
    ensures NameKey(f) == PackedKey(FieldName(f))
  {
  }

  lemma NameKeyOfNameIn2(f: Field)
    requires f.WxString? || f.Category? || f.ThreeHrPressureTendencyMb? || f.MaxTC? ||
             f.MinTC? || f.MaxT24hrC? || f.MinT24hrC? || f.PrecipIn?
    ensures NameKey(f) == PackedKey(FieldName(f))
  {
  }

  lemma NameKeyOfNameIn3(f: Field)
    requires f.Pcp3hrIn? || f.Pcp6hrIn? || f.Pcp24hrIn? || f.SnowIn? ||
             f.VertVisFt? || f.ReportType? || f.ElevationM?
    ensures NameKey(f) == PackedKey(FieldName(f))
  {
  }

  lemma NameKeysDistinct(f: Field, g: Field)
    requires NameKey(f) == NameKey(g)
    ensures f == g
  {
  }

  /** No two fields share an element name. */
  lemma FieldNamesDistinct(f: Field, g: Field)
    requires FieldName(f) == FieldName(g)
    ensures f == g
  {
    NameKeyOfName(f);
    NameKeyOfName(g);
    NameKeysDistinct(f, g);
  }

  /** The fields read as numbers or as a time, which have an "absent" sentinel. */
  predicate IsNumeric(f: Field)
  {
    !(f.SkyCondition? || f.RawText? || f.StationId? || f.QualityControlFlags? || f.WxString?
      || f.Category? || f.ReportType?)
  }

  /** The fields declared `int` in the record. */
  predicate IsInteger(f: Field)
  {
    f.WindDirDegrees? || f.WindSpeedKt? || f.WindGustKt? || f.VertVisFt?
  }

  /** atof as far as the record can tell: NaN for a text strtod reads as NaN, and the
      reading of the text otherwise. */
  function Atof(text: string): (m: Measure)
    ensures m == NaN <==> ReadsAsNaN(text)
    ensures m.Reading? ==> m.text == text
  {
    if ReadsAsNaN(text) then NaN else Reading(text)
  }

  /** atof reads "nan" in any case, after a sign and leading blanks, as NaN. */
  lemma AtofReadsNaN()
    ensures Atof(" -NaN") == NaN
  {
    var s := " -NaN";
    var t := s[1..];
    assert t == "-NaN" && t[0] == '-' && t[1..] == "NaN";
    assert IsSpace(s[0]) && !IsSpace(t[0]);
    assert SkipSpace(t) == t;
    assert SkipSpace(s) == SkipSpace(t);
    assert LowerAscii('N') == 'n' && LowerAscii('a') == 'a';
    assert ReadsAsNaN(s);
  }



  /** atof keeps the text of a number. */
  lemma AtofKeepsNumber()
    ensures Atof("12.5") == Reading("12.5")
  {
    assert SkipSpace("12.5") == "12.5";
  }

  /** What one field of a record holds, whatever its type. */
  datatype Value =
    | Whole(i: int)
    | Real(m: Measure)
    | Instant(t: int)
    | Chars(s: string)
    | FlightRule(c: FlightCategory)
    | ReportKind(k: MetarType)
    | FlagBits(b: bv8)
    | SkyLayers(slots: seq<SkyEntry>, count: nat)

  /** The value field `f` holds in `w`. */
  function Get(w: Metar, f: Field): Value
  {
    match f
    case SkyCondition => SkyLayers(w.skyCondition, w.skyConditionCount)
    case RawText => Chars(w.rawText)
    case StationId => Chars(w.stationId)
    case ObservationTime => Instant(w.observationTime)
    case Latitude => Real(w.latitude)
    case Longitude => Real(w.longitude)
    case TempC => Real(w.tempC)
    case DewpointC => Real(w.dewpointC)
    case WindDirDegrees => Whole(w.windDirDegrees)
    case WindSpeedKt => Whole(w.windSpeedKt)
    case WindGustKt => Whole(w.windGustKt)
    case VisibilityStatuteMi => Real(w.visibilityStatuteMi)
    case AltimInHg => Real(w.altimInHg)
    case SeaLevelPressureMb => Real(w.seaLevelPressureMb)
    case QualityControlFlags => FlagBits(w.qualityControlFlags)
    case WxString => Chars(w.wxString)
    case Category => FlightRule(w.flightCategory)
    case ThreeHrPressureTendencyMb => Real(w.threeHrPressureTendencyMb)
    case MaxTC => Real(w.maxTC)
    case MinTC => Real(w.minTC)
    case MaxT24hrC => Real(w.maxT24hrC)
    case MinT24hrC => Real(w.minT24hrC)
    case PrecipIn => Real(w.precipIn)
    case Pcp3hrIn => Real(w.pcp3hrIn)
    case Pcp6hrIn => Real(w.pcp6hrIn)
    case Pcp24hrIn => Real(w.pcp24hrIn)
    case SnowIn => Real(w.snowIn)
    case VertVisFt => Whole(w.vertVisFt)
    case ReportType => ReportKind(w.metarType)
    case ElevationM => Real(w.elevationM)
  }

  /** The numeric or time field `f` still holds its "absent" sentinel: 0 for the time,
      -1 for an integer, NaN for a float. */
  predicate Absent(w: Metar, f: Field)
  {
    match f
    case ObservationTime => w.observationTime == 0
    case Latitude => w.latitude == NaN
    case Longitude => w.longitude == NaN
    case TempC => w.tempC == NaN
    case DewpointC => w.dewpointC == NaN
    case WindDirDegrees => w.windDirDegrees == -1
    case WindSpeedKt => w.windSpeedKt == -1
    case WindGustKt => w.windGustKt == -1
    case VisibilityStatuteMi => w.visibilityStatuteMi == NaN
    case AltimInHg => w.altimInHg == NaN
    case SeaLevelPressureMb => w.seaLevelPressureMb == NaN
    case ThreeHrPressureTendencyMb => w.threeHrPressureTendencyMb == NaN
    case MaxTC => w.maxTC == NaN
    case MinTC => w.minTC == NaN
    case MaxT24hrC => w.maxT24hrC == NaN
    case MinT24hrC => w.minT24hrC == NaN
    case PrecipIn => w.precipIn == NaN
    case Pcp3hrIn => w.pcp3hrIn == NaN
    case Pcp6hrIn => w.pcp6hrIn == NaN
    case Pcp24hrIn => w.pcp24hrIn == NaN
    case SnowIn => w.snowIn == NaN
    case VertVisFt => w.vertVisFt == -1
    case ElevationM => w.elevationM == NaN
    case _ => false
  }
  /** A float field reads as NaN exactly when it is absent. */
  lemma RealNaNIsAbsent(w: Metar, f: Field)
    requires IsNumeric(f) && !IsInteger(f) && f != ObservationTime
    ensures Get(w, f) == Real(NaN) <==> Absent(w, f)
  {
  }


  /** The record `init_metar` produces is well formed, reports no cloud layer and holds
      the "absent" sentinel in every field: -1 in the integers and in every sky slot's
      base, NaN in the floats, 0 for the time and the flags, empty strings, and the
      unknown value of every enumeration. */
  lemma InitMetarIsAbsent()
    ensures Valid(InitMetar())
    ensures Layers(InitMetar()) == []
    ensures forall k :: 0 <= k < SkySlots ==>
      InitMetar().skyCondition[k] == SkyEntry(UnknownCover, -1)
    ensures forall f :: !HasFlag(InitMetar().qualityControlFlags, f)
    ensures InitMetar().rawText == "" && InitMetar().stationId == "" && InitMetar().wxString == ""
    ensures InitMetar().flightCategory == UnknownCategory && InitMetar().metarType == UnknownType
    ensures forall f :: IsNumeric(f) ==> Absent(InitMetar(), f)
  {
  }
}
