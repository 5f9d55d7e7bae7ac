/** Fixed lookup tables: the sky-cover and flight-category codes of the source document,
    their display labels, and the VFR test on a sky cover. */
module Classify {

  import opened Record
  import Ansi

  // ---------------------------------------------------------------------------
  // Sky cover
  // ---------------------------------------------------------------------------

  /** The cover a `sky_cover` attribute value denotes; comparison is case-sensitive and
      anything unrecognised is the unknown cover, not an error. */
  function ParseCover(s: string): SkyCover
  {
    if s == "SKC" then SKC
    else if s == "CLR" then CLR
    else if s == "CAVOK" then CAVOK
    else if s == "FEW" then FEW
    else if s == "SCT" then SCT
    else if s == "BKN" then BKN
    else if s == "OVC" then OVC
    else if s == "OVX" then OVX
    else UnknownCover
  }

  /** The code the sky summary of template mode prints for a cover. */
  function CoverCode(c: SkyCover): string
  {
    match c
    case SKC => "SKC"
    case CLR => "CLR"
    case CAVOK => "CAVOK"
    case FEW => "FEW"
    case SCT => "SCT"
    case BKN => "BKN"
    case OVC => "OVC"
    case OVX => "OVX"
    case UnknownCover => "???"
  }

  /** The summary code of a cover is read back as that cover, and a recognised
      attribute value is printed back unchanged. */
  lemma CoverCodeRoundTrip(c: SkyCover, s: string)
    ensures ParseCover(CoverCode(c)) == c
    ensures ParseCover(s) != UnknownCover ==> CoverCode(ParseCover(s)) == s
  {
  }

  /** isVfrWeather: 1 for the covers that leave the sky open for visual flight. */
  function IsVfrWeather(c: SkyCover): (r: int)
    ensures r == 0 || r == 1
    ensures r == 0 <==> c.BKN? || c.OVC? || c.OVX? || c.UnknownCover?
  {
    if c == CAVOK || c == FEW || c == SCT || c == SKC || c == CLR then 1 else 0
  }

  /** Exactly five of the nine covers are VFR covers. */
  lemma VfrCovers()
    ensures (set c: SkyCover | IsVfrWeather(c) == 1) == {CAVOK, FEW, SCT, SKC, CLR}
    ensures (set c: SkyCover | IsVfrWeather(c) == 0) == {BKN, OVC, OVX, UnknownCover}
  {
    var vfr := set c: SkyCover | IsVfrWeather(c) == 1;
    var other := set c: SkyCover | IsVfrWeather(c) == 0;
    forall c: SkyCover ensures c in vfr <==> c in {CAVOK, FEW, SCT, SKC, CLR} {
    }
    forall c: SkyCover ensures c in other <==> c in {BKN, OVC, OVX, UnknownCover} {
    }
  }

  /** skyCondition: the words the narrative prints for a cloud layer. */
  function SkyConditionLabel(c: SkyCover): (r: string)
    ensures r == "Unknown" <==> c == CLR || c == UnknownCover
  {
    match c
    case BKN => "Broken clouds"
    case CAVOK => "Ceiling/visibility okay"
    case FEW => "Few clouds"
    case OVC => "Overcast"
    case OVX => "Sky obscured"
    case SCT => "Scattered clouds"
    case SKC => "Sky clear"
    case _ => "Unknown"
  }

  /** Apart from the shared "Unknown", different covers get different labels. */
  lemma SkyConditionLabelsDistinct(c1: SkyCover, c2: SkyCover)
    requires SkyConditionLabel(c1) == SkyConditionLabel(c2)
    requires SkyConditionLabel(c1) != "Unknown"
    ensures c1 == c2
  {
  }

  // ---------------------------------------------------------------------------
  // Flight category and report type
  // ---------------------------------------------------------------------------

  /** The category a `flight_category` element's text denotes (case-sensitive). */
  function ParseFlightCategory(s: string): FlightCategory
  {
    if s == "VFR" then VFR
    else if s == "MVFR" then MVFR
    else if s == "IFR" then IFR
    else if s == "LIFR" then LIFR
    else UnknownCategory
  }

  /** The colour a category is painted in. */
  function CategoryColour(c: FlightCategory): string
  {
    match c
    case VFR => Ansi.Green
    case MVFR => Ansi.Blue
    case IFR => Ansi.Red
    case LIFR => Ansi.Magenta
    case UnknownCategory => ""
  }

  /** flightConditions: the label shown for a category. Without colour it is the
      document's own code, which reads back as the same category; with colour a
      known category's code is wrapped in its colour; the unknown category shows
      as "???" either way. */
  function FlightConditions(c: FlightCategory, colour: bool): (r: string)
    ensures !colour ==> ParseFlightCategory(r) == c
    ensures c == UnknownCategory <==> r == "???"
    ensures colour && c != UnknownCategory ==>
      r == Ansi.Paint(FlightConditions(c, false), CategoryColour(c), true)
  {
    match c
    case VFR => if colour then Ansi.Green + "VFR" + Ansi.Reset else "VFR"
    case MVFR => if colour then Ansi.Blue + "MVFR" + Ansi.Reset else "MVFR"
    case IFR => if colour then Ansi.Red + "IFR" + Ansi.Reset else "IFR"
    case LIFR => if colour then Ansi.Magenta + "LIFR" + Ansi.Reset else "LIFR"
    case UnknownCategory => "???"
  }

  /** A recognised `flight_category` text is displayed back unchanged. */
  lemma FlightCategoryRoundTrip(s: string)
    requires ParseFlightCategory(s) != UnknownCategory
    ensures FlightConditions(ParseFlightCategory(s), false) == s
  {
  }

  /** The type a `metar_type` element's text denotes (case-sensitive). */
  function ParseMetarType(s: string): MetarType
  {
    if s == "METAR" then METAR
    else if s == "SPECI" then SPECI
    else UnknownType
  }

  /** What template mode writes for `{metar_type}`: "SPECI" for a special report and
      "METAR" for everything else, the unknown type included. */
  function MetarTypeText(t: MetarType): (r: string)
    ensures ParseMetarType(r) == (if t == SPECI then SPECI else METAR)
    ensures ParseMetarType(r) != UnknownType
  {
    if t == SPECI then "SPECI" else "METAR"
  }
}
