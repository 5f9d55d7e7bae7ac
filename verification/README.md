# metar: the record model, the document mapping, strReplace and the template passes

`metar` is a command-line client that downloads aviation weather reports (METARs)
as XML and prints them, either as a short narrative or through a user-supplied
template with `{placeholder}` fields. This project models the deterministic
core of `metar.c` in Dafny and proves properties of that model:

- **Record** — `struct metar` as an immutable datatype, and `init_metar`, which
  gives every field its "absent" value (-1, NaN, 0, empty, unknown).
- **Xml, Mapper** — `xmlToMetar` over an abstract element tree:
  - the return codes;
  - the name-by-name dispatch of a METAR element's children;
  - the truncating copies into the fixed `raw_text`, `station_id` and `wx_string`
    buffers;
  - the `sky_condition` attribute scan, with its cap of four layers;
  - the `quality_control_flags` sub-element scan;
  - the `flight_category` and `metar_type` enumerations.
- **Classify** — the lookup tables `isVfrWeather`, `skyCondition` and
  `flightConditions`, and the cover and category codes.
- **Replace** — `strReplace`, the bounded left-to-right find-and-replace, both
  as a recursive function and as the C loop. When the replaced text fits, it is proved equal to an
  unbounded reference replace-all.
- **Template** — template mode, a fold of `strReplace` over 33 ordered passes.
  It covers:
  - the "(unknown)" rule of the value wrappers;
  - the quality-flag composite;
  - the sky-summary composite.
- **Narrative** — the integer-only lines of the narrative report:
  - the correction line;
  - the winds line;
  - the sky-layer lines with their ceiling colour tiers;
  - the adverse-weather line;
  - the station notes.
- **Text, Ansi** — shared helpers:
  - `%d`/`atoi`;
  - `strncpy` truncation;
  - `strcasecmp`;
  - space-joined word lists;
  - the ANSI colour sequences, treated as opaque constants that start with the
    escape character.

Characters stand for bytes. A Dafny `string` is a C string without its
terminator, since texts taken from an XML document hold no NUL.

Where a behaviour depends on something outside the core, the model takes it as a
parameter:

- `parseTime` stands for `strptime` followed by `timegm`;
- `Formats` holds the `strftime` and `printf("%.1f"/"%.2f")` renderings;
- a float field is `NaN` or the element text `atof` reads. `Record.Atof` turns the
  texts C's `atof` reads as NaN ("nan", "-NaN" and the like) into `NaN` and keeps
  every other text; the decimal value itself is left to the renderings.

## Model

| member | source | states |
|---|---|---|
| Record.InitMetarIsAbsent | metar.c:1051-1093 | After init_metar the record is well formed with no layers. Every sky slot is (UNKNOWN, -1). No flag is set. The strings are empty and both enumerations are unknown. Every numeric or time field holds its "absent" sentinel. |
| Record.FieldNamesDistinct | metar.c:1172-1411 | The element names the dispatch compares against are pairwise distinct. |
| Record.Atof | metar.c:1239 | `(float)atof(xstr)` yields NaN exactly for a text that, after leading white space and an optional sign, starts with "nan" in any case. Every other text is kept as the reading. |
| Record.AtofReadsNaN | metar.c:1239 | " -NaN" reads as NaN. |
| Record.RealNaNIsAbsent | metar.c:1239-1414 | A float field holds NaN exactly when it is absent. |
| Text.Truncate | metar.c:1212-1213 | strncpy into an n+1 byte buffer followed by a forced NUL keeps exactly the first min(|s|, n) characters of s. |
| Text.AtoIOfIntText | metar.c:1464-1466 | atoi reads the "%d" text of any integer back as that integer. |
| Text.AtoIOfNonNumeric | metar.c:1259 | atoi of a text whose first non-blank character is neither a sign nor a digit is 0. |
| Text.TrimmedTerminatedIsJoin | metar.c:864-865 | Cutting the last character off a list of words that each end in a space gives the words joined by single spaces, with no trailing space. |
| Text.SplitJoin | metar.c:847-865 | Non-empty, space-free words joined by single spaces split back into the same words. |
| Classify.CoverCodeRoundTrip | metar.c:1179-1198 | The summary code of every cover parses back to that cover. A recognised sky_cover value is printed back unchanged. |
| Classify.IsVfrWeather | metar.c:1554-1560 | The result is 0 or 1. It is 0 exactly for BKN, OVC, OVX and UNKNOWN. |
| Classify.VfrCovers | metar.c:1554-1560 | The VFR covers are exactly CAVOK, FEW, SCT, SKC and CLR. The others are exactly BKN, OVC, OVX and UNKNOWN. |
| Classify.SkyConditionLabel | metar.c:1539-1552 | The label is "Unknown" exactly for CLR and the unknown cover. |
| Classify.SkyConditionLabelsDistinct | metar.c:1539-1552 | Apart from "Unknown", different covers get different labels. |
| Classify.FlightConditions | metar.c:981-1007 | Without colour the label parses back to the category. The unknown category, and only it, shows "???". With colour a known category's label is its plain label wrapped in that category's colour. |
| Classify.FlightCategoryRoundTrip | metar.c:1332-1345 | A recognised flight_category text is displayed back unchanged. |
| Classify.MetarTypeText | metar.c:915-918 | `{metar_type}` shows "SPECI" for a special report and "METAR" for everything else, including the unknown type. |
| Mapper.ScannedPrefix | metar.c:1176 | The attribute scan reads the longest prefix of attributes that all have a value. It stops at the first one without a value. |
| Mapper.ScanSky | metar.c:1176-1207 | The count grows by one per closing attribute ("CLR" cover or a cloud base) and is capped at 4. Closed layers are never touched. No slot past the final count is written. A full array ignores every further attribute. |
| Mapper.ScanOpenRun | metar.c:1175-1205 | Attributes that have values and close no layer rewrite only the current slot's cover, to the last cover they name. The count stays. |
| Mapper.ScanCloser | metar.c:1182-1203 | A closing attribute completes the current slot and moves on. A cloud base stores its atoi value. A "CLR" cover stores CLR and keeps the slot's base, -1 in a fresh record. |
| Mapper.ScanSkyLayer | metar.c:1176-1207 | An open run followed by a closing attribute fills the current slot with (last cover named, atoi of the base), or with (CLR, old base) for a "CLR" closer. The scan then continues from the next slot. |
| Mapper.CoverWithoutBaseIsOverwritten | metar.c:1179-1203 | A non-CLR cover without a base does not advance the count. The next cover and base land in the same slot. |
| Mapper.UnrecognisedCoverIsUnknown | metar.c:1197-1198 | An unrecognised cover text is stored as UNKNOWN without advancing the count. |
| Mapper.NamedFlag | metar.c:1308-1323 | A sub-element name selects a flag exactly when it is that flag's name. |
| Mapper.RaiseFlag | metar.c:1300-1323 | After one sub-element a flag is set iff it was set before, or the sub-element has its name and text equal to "TRUE" ignoring case. |
| Mapper.ScanQuality | metar.c:1298-1324 | After the scan a flag is set iff it was set before or some sub-element raises it. |
| Mapper.FieldOf | metar.c:1172-1411 | A name that selects a field is that field's element name. |
| Mapper.FieldNameRecognised | metar.c:1172-1415 | Every field's element name selects that field. A name selects nothing exactly when no field has it. |
| Mapper.SetNumber | metar.c:1224-1415 | An `int` field becomes atoi of the text and a `float` field becomes atof of it. The time becomes the parsed value when the text parses, and otherwise keeps its old value. Strings, flags, sky slots, enumerations and every other numeric field stay. |
| Mapper.SetWhole | metar.c:1259-1399 | The `int` field holds the given value and nothing else changes. |
| Mapper.SetReal | metar.c:1239-1414 | The `float` field holds the given reading and nothing else changes. |
| Mapper.SetNumberKeeps | metar.c:1224-1415 | A numeric element leaves every other field's value as it was. |
| Mapper.SetNumberWrites | metar.c:1239-1414 | A numeric element other than the time stores its text read by atoi or atof. |
| Mapper.SetOther | metar.c:1172-1410 | raw_text, station_id and wx_string become the text cut to 511, 4 and 63 characters under their own element and stay otherwise. flight_category and metar_type become the parsed enumeration under their element and stay otherwise. quality_control_flags becomes the sub-element scan, and the sky slots become the attribute scan. No numeric field changes and no flag is lost. |
| Mapper.SetOtherKeeps | metar.c:1172-1410 | A text, sky, flag or enumeration element leaves every other overwritten field as it was. |
| Mapper.SetOtherWrites | metar.c:1209-1410 | A text or enumeration element stores its text cut to the buffer or parsed to the enumeration. |
| Mapper.ApplyChild | metar.c:1169-1207 | Each child keeps the record well formed. It adds one layer per closing sky attribute, up to four, and never changes a closed layer. What it writes into each field is stated by Mapper.ApplyChildWritten, Mapper.ApplyChildFlags and Mapper.ApplyChildSky. |
| Mapper.ApplyChildTextFrames | metar.c:1209-1235 | raw_text, station_id and wx_string change only under their own element, to its text cut to the buffer. The time changes only under observation_time, to a parsed value. |
| Mapper.ApplyChildFlagFrames | metar.c:1286-1325 | The flags change only under quality_control_flags and never lose a flag. |
| Mapper.ApplyChildSkyFrame | metar.c:1172-1208 | The sky slots change only under sky_condition, and only while a slot is free. |
| Mapper.ApplyChildKeepsAbsent | metar.c:1169-1415 | A numeric field keeps its sentinel under every child that is not its own element. |
| Mapper.ApplyChildWritesOwn | metar.c:1209-1415 | A field's own element stores its text read as the field's type. The time changes only when its text parses. |
| Mapper.ApplyChildKeepsOther | metar.c:1169-1415 | Every other child leaves an overwritten field as it was. |
| Mapper.ApplyChildWritten | metar.c:1169-1415 | After one child, each field other than the sky slots and the flags holds what that child writes there, or its previous value when the child writes nothing there. |
| Mapper.WrittenByName | metar.c:1209-1415 | For every field but the time, a child writes the field exactly when it is an element named after the field. It then writes the element's text read as the field's type. |
| Mapper.ApplyChildFlags | metar.c:1286-1325 | After one child a flag is set iff it was set before, or the child is a quality_control_flags element with a sub-element raising it. |
| Mapper.ApplyChildSky | metar.c:1172-1208 | A sky_condition child scans its attributes into the slots. Any other child leaves them alone. |
| Mapper.ApplyChildren | metar.c:1165-1207 | The children in document order keep the record well formed. Together they hold one layer per closing sky attribute, capped at four. The field values are stated by Mapper.ApplyChildrenWritten, Mapper.ApplyChildrenFlags and Mapper.ApplyChildrenSky. |
| Mapper.ApplyChildrenWritten | metar.c:1165-1422 | After all children, an overwritten field holds the value of its last writer, or its previous value when no child writes it. Later elements overwrite earlier ones. |
| Mapper.ApplyChildrenFlags | metar.c:1165-1422 | After all children a flag is set iff it was set before or some quality_control_flags child raises it. |
| Mapper.ApplyChildrenSky | metar.c:1165-1422 | The sky slots after all children are the attribute scans of the sky_condition children, in document order. |
| Mapper.ApplyChildrenIgnoresOthers | metar.c:1169 | Children that are not elements with a recognised name leave the record unchanged. |
| Mapper.ObservationWithoutFieldsIsInit | metar.c:1164-1169 | A METAR element without a recognised child maps to the record init_metar produces. |
| Mapper.MapObservation | metar.c:1163-1207 | Each observation yields a well-formed record, starting from init_metar. It has one layer per closing sky attribute among its children, capped at four. The field values are stated by the Observation lemmas below. |
| Mapper.ObservationTakesLastWritten | metar.c:1164-1422 | In a mapped observation, every field but the sky slots and the flags holds the value of the last child that writes it. For every field but the time, that child is the last element named after the field. |
| Mapper.ObservationKeepsDefault | metar.c:1164-1422 | A field that no child writes keeps the value init_metar gave it. |
| Mapper.ObservationFlags | metar.c:1164-1422 | A mapped observation has exactly the flags that some sub-element of some quality_control_flags element raises. |
| Mapper.ObservationSky | metar.c:1164-1422 | A mapped observation's sky slots are the scans of its sky_condition elements, in order, starting from the empty slots of init_metar. |
| Mapper.NaNElementIsAbsent | metar.c:1239-1414 | When the last element of a float field has a text atof reads as NaN, the field is absent, as if the element were missing. |
| Mapper.ApplyChildrenKeepsAbsent | metar.c:1165-1422 | A field whose element occurs among no children keeps its sentinel. |
| Mapper.MissingElementIsAbsent | metar.c:1164-1422 | An observation without a given numeric or time element reports that field as absent. |
| Mapper.MetarElementsOfMetarElements | metar.c:1158-1162 | A node set made only of METAR elements loses nothing to the name test. |
| Mapper.MapReports | metar.c:1158-1425 | There are at most as many records as nodes, and all are well formed. |
| Mapper.MapReportsStep | metar.c:1162-1423 | One more node adds its record when it is a METAR element, and nothing otherwise. |
| Mapper.XmlToMetar | metar.c:1116-1429 | The codes are -1, -2 and -3 exactly for an unparsed document, a missing XPath context and a missing expression. An empty node set gives 0. Otherwise the code is min(nodes, count), with one well-formed record per METAR element among the first `code` nodes, in order. |
| Mapper.MapReportsOfMetarElements | metar.c:1158-1424 | When every selected node is a METAR element, record k is the mapping of node k. |
| Replace.Scan | metar.c:1515-1534 | The loop only appends to what was written. The text never reaches len characters. |
| Replace.StrReplace | metar.c:1504-1537 | The result always leaves room for the terminator: at most len-1 characters. |
| Replace.StrReplaceLoop | metar.c:1504-1537 | The C loop with `pos` and `i` computes exactly StrReplace. |
| Replace.StrReplaceWhenItFits | metar.c:1515-1533 | When the fully replaced text fits, the output is the reference replace-all: every non-overlapping occurrence, found left to right, is replaced. |
| Replace.StrReplaceWithoutMatch | metar.c:1526-1533 | A text without an occurrence is copied unchanged, cut to len-1 characters. |
| Replace.ReplaceAllOfNeedle | metar.c:1517-1524 | A text that is exactly the needle becomes exactly the replacement. |
| Replace.ReplaceAllIdentity | metar.c:1515-1533 | Replacing the needle by itself leaves every text unchanged. |
| Replace.UnfittingMatchDropsFirstCharacter | metar.c:1517-1533 | A match whose replacement does not fit writes nothing and resumes one character later. The needle loses its first character and the rest is copied. |
| Template.IntValue | metar.c:1459-1472 | strReplaceInt writes "(unknown)" exactly for a negative value. For any other value it writes digits that atoi reads back as the value. |
| Template.UnknownValueIffUnset | metar.c:1431-1502 | Every wrapper writes "(unknown)" for a field at its sentinel. For renderings that never produce that text, it writes it exactly when the field is unset: time 0, a negative integer, or NaN. |
| Template.QualityText | metar.c:846-866 | `{quality_control_flags}` is the codes of the set flags, in bit order, joined by single spaces. |
| Template.QualityTextEmptyIff | metar.c:846-866 | The composite is empty exactly when no flag is set. |
| Template.QualityTextReadsBack | metar.c:846-866 | Split at its spaces, the composite gives back the codes of the set flags, in order. |
| Template.SetCodesMembership | metar.c:848-863 | A flag's code appears exactly when the flag is set. |
| Template.QualityTextDeterminesFlags | metar.c:846-866 | Two different flag bytes never give the same composite. |
| Template.CorrectedAutomatedQualityText | metar.c:848-851 | A corrected report from an automated station shows "COR AUTO". |
| Template.SkyText | metar.c:868-913 | `{sky_condition}` holds one token per reported layer, bottom to top, joined by single spaces. It splits back into exactly those tokens and is empty exactly when there is no layer. |
| Template.ApplyPasses | metar.c:816-925 | After any pass the text fits the 8192-byte buffer with its terminator. |
| Template.Render | metar.c:816-925 | Template mode's output always fits the buffer. |
| Template.ApplyUnmatched | metar.c:816-925 | Passes whose placeholders do not occur leave a text that fits unchanged. |
| Template.ApplySingle | metar.c:816-925 | A template that is exactly one pass's placeholder renders as that pass's value. This holds when no earlier placeholder occurs in it and the value fits and contains no brace. |
| Template.PlainTemplateIsUnchanged | metar.c:816-925 | A template without an opening brace is printed as it is. |
| Template.SameValuesRenderAlike | metar.c:816-925 | Records whose pass values agree render every template alike. |
| Template.AbsentRendersUnknown | metar.c:816-925 | An isolated placeholder of a field at its sentinel renders as "(unknown)". |
| Template.MissingElementRendersUnknown | metar.c:816-925 | An observation lacking the element a pass reads renders that pass's isolated placeholder as "(unknown)". |
| Template.MissingTemperatureRendersUnknown | metar.c:822 | Without a temp_c element, `{temp_c}` renders as "(unknown)". |
| Template.MissingTimeRendersUnknown | metar.c:818 | Without an observation_time element, `{observation_time}` renders as "(unknown)". |
| Template.SeaLevelPressureShowsAltimeter | metar.c:831 | `{sea_level_pressure_mb}` always shows the same text as `{altim_in_hg}`. |
| Template.SeaLevelPressureIsNeverShown | metar.c:831 | Changing the record's sea-level pressure changes no rendering. |
| Template.CorrectedSeaLevelShowsSeaLevel | metar.c:831 | The corrected `{sea_level_pressure_mb}` value is "(unknown)" exactly when the sea-level pressure is absent. It does not depend on the altimeter setting. |
| Template.SeaLevelCounterexample | metar.c:831 | A station with an altimeter setting and no sea-level pressure shows the altimeter reading as written. The corrected value is "(unknown)". |
| Template.AdvertisedNamesAreNoPlaceholders | metar.c:321 | No pass replaces a placeholder named observation_time_local or sky_conditions, the names the usage text advertises. |
| Template.ForeignPlaceholderIsKept | metar.c:816-925 | A well-formed placeholder that no pass looks for comes out unchanged. |
| Template.AdvertisedLocalTimeIsNotReplaced | metar.c:819 | The advertised `{observation_time_local}` comes out of template mode unchanged. The pass replaces `{observation_localtime}`. |
| Template.AdvertisedSkySummaryIsNotReplaced | metar.c:913 | The advertised `{sky_conditions}` comes out unchanged. The pass replaces `{sky_condition}`. |
| Template.ReplacedTextIsReplacedAgain | metar.c:816-817 | Later passes rescan substituted text: a raw report reading "{station_id}" renders `{raw_text}` as the station identifier. |
| Narrative.WindLine | metar.c:562-657 | No line is printed exactly when the direction is negative. A zero speed gives "Calm". |
| Narrative.WindLinePlainVariable | metar.c:596-606 | Without colour, a zero direction prints "Variable at <speed> knots", followed by "gusting <gust> knots" only for a positive gust. |
| Narrative.WindLinePlainHeading | metar.c:636-650 | Without colour, any other direction prints "<dir>* at <speed> knots", followed by "gusting <gust> knots" only for a positive gust. |
| Narrative.AbsentSpeedIsPrinted | metar.c:562-608 | Only the direction decides whether the line is printed. A direction with the absent speed -1 prints "-1 knots". |
| Narrative.WindLineHighlight | metar.c:570-655 | Without colour the line has no escape sequence. With colour it has one exactly when the speed is at least 10 or a positive gust exceeds the speed by 5 or more. |
| Narrative.CeilingColour | metar.c:700-714 | A highlighted layer is blue, red or magenta. |
| Narrative.CeilingTiers | metar.c:700-714 | Blue exactly from 1000 feet, red exactly from 500 to 999, magenta exactly below 500. |
| Narrative.SkyLineIsOneLine | metar.c:692-724 | Every layer prints exactly one line. |
| Narrative.SkyLineHighlight | metar.c:698-722 | A cloud layer's line has an escape sequence exactly when colour is on, the cover is not VFR and the base is at most 3000 feet. |
| Narrative.ClearSkyLine | metar.c:692-695 | A CLR layer prints "Clear" on its own line, the same with or without colour. |
| Narrative.SkyLinesCount | metar.c:688-727 | The sky report has exactly one line per reported layer. |
| Narrative.SkyLinesPlain | metar.c:688-727 | Without colour the sky report has no escape sequence. |
| Narrative.SkyReportLines | metar.c:688-727 | A record's sky report has sky_condition_count lines. |
| Narrative.CorrectedNote | metar.c:550-557 | The correction line appears exactly when the corrected flag is set. |
| Narrative.AdverseWeatherLine | metar.c:759-769 | The adverse-weather line appears exactly for a non-empty weather string. Without colour that string appears verbatim after the label. |
| Narrative.MaintenanceNote | metar.c:772-778 | The maintenance warning appears exactly when the maintenance flag is set. |
| Narrative.OfflineNoteNeverShown | metar.c:780-786 | As written, the offline warning is never printed, whatever the flags. |
| Narrative.OfflineNoteShownIffNoWeather | metar.c:780-786 | With the corrected test, the offline warning appears exactly when the no-weather flag is set. |
| Narrative.OfflineCounterexample | metar.c:780 | A report whose only flag is "no weather" gets no warning as written, and gets one with the corrected test. |
| Narrative.AutomatedNoteIff | metar.c:788-791 | The automation note appears exactly when either automation flag is set. |
| Narrative.NotesLines | metar.c:771-791 | As written, the notes have one line for maintenance and one for either automation flag. The no-weather flag adds no line. |
| Narrative.NotesEmptyIff | metar.c:771-791 | As written, no notes appear exactly when neither the maintenance flag nor an automation flag is set, whatever the no-weather flag. |
| Narrative.CorrectedNotesLines | metar.c:771-791 | With the corrected offline test, the notes are one line per condition that holds: maintenance, no weather, and either automation flag. |
| Narrative.CorrectedNotesEmptyIff | metar.c:771-791 | With the corrected test, no notes appear exactly when none of those four flags is set. |
| Narrative.NotesCounterexample | metar.c:780 | A station whose only flag is "no weather" gets no notes as written. With the corrected test it gets the offline warning. |
| Narrative.EmptyRecordPrintsNothing | metar.c:550-791 | A record that no element filled prints no winds, layers, correction, adverse weather or notes. |

## Left out

- Command-line parsing, URL building, the curl download, the cache files, the
  purge through `rm` and the `sleep` throttle. These are I/O and process plumbing.
- libxml parsing and XPath evaluation. `XmlToMetar` receives their outcome as a
  `QueryResult`, and a document is an abstract element tree. `xmlNodeGetContent`
  is the concatenated text of a node.
- `strptime`/`timegm`. These are the `parseTime` parameter; a text that does
  not parse leaves the time unchanged.
- `strftime` with `gmtime`/`localtime`. These are the `utc` and `local`
  renderings of `Formats`; only the rule that time 0 shows "(unknown)" is
  modelled.
- Floating point:
  - The decimal value `atof` computes, `roundf`, `%.1f`/`%.2f`, and the
    Celsius-to-Fahrenheit and inHg-to-mb arithmetic. A float field keeps the
    element text it was read from, or NaN for the texts `atof` reads as NaN, and
    its rendering is a parameter. An infinite or otherwise special value a
    rendering might print is the rendering's business.
  - The narrative's visibility, temperature, dewpoint and pressure lines, whose
    tiers compare floats.
- The narrative's header lines (station, UTC and local time) and its raw-text
  line, which only print strftime output or copy the record. Also the `-d`
  decoding switch that selects between the modes.
- Text.AtoI: C's `atoi` on a 32-bit `int` is modelled on unbounded integers. Out
  of range it is undefined behaviour in C, so digit strings too long for an
  `int` are not modelled faithfully.
- Text.IntText: `snprintf` into the replacement buffer could in principle cut a
  very long number. A 32-bit value always fits, so no cut is modelled.
- Replace.StrReplace: requires a non-empty needle. Every call site passes a
  non-empty placeholder literal. With an empty needle the C loop steps `i`
  backwards and need not terminate.
- Replace.StrReplace: the C loop also visits `i == strlen(haystack)`, which
  copies the terminating NUL when room is left. The model stops one step
  earlier. The resulting C string is the same.
- Template.MissingElementRendersUnknown: requires the pass's placeholder to be
  isolated (no earlier placeholder occurs in it). It is proved outright for
  `{temp_c}` and `{observation_time}`, not for every pass.
- Template.AbsentRendersUnknown: the same isolation precondition applies.
- The composite buffers of the quality flags and the sky summary are of fixed
  size. Eight codes and four tokens always fit, so they are not cut.
- The commented-out older `flight_category` switch (after the template passes)
  is dead code.

## Findings

| source | as written | input that shows it | evidently intended | confidence | as-written member | corrected member |
|---|---|---|---|---|---|---|
| metar.c:780 | `(flags & METAR_QUALITY_NO_WEATHER) == METAR_QUALITY_MAINTENANCE`: the masked value is 0 or 0x80, never 0x08, so the "Station offline" warning is never printed | flags = 0x80 (present-weather sensor off only): no notes at all | `(flags & METAR_QUALITY_NO_WEATHER) == METAR_QUALITY_NO_WEATHER`, printing the warning exactly when the no-weather flag is set | high (not executed) | Narrative.OfflineNoteAsWritten and Narrative.Notes (Narrative.OfflineNoteNeverShown, Narrative.OfflineCounterexample, Narrative.NotesCounterexample) | Narrative.OfflineNote and Narrative.CorrectedNotes (Narrative.OfflineNoteShownIffNoWeather, Narrative.CorrectedNotesLines) |
| metar.c:831 | `strReplaceFloat2("{sea_level_pressure_mb}", weatherReports[j].altim_in_hg, ...)`: the pass shows the altimeter setting, so the record's sea-level pressure is never shown | altim_in_hg "30.01" and no sea_level_pressure_mb element: `{sea_level_pressure_mb}` shows the altimeter reading | the record's own `sea_level_pressure_mb`, which the usage text (metar.c:321) announces as sea-level pressure in millibars | medium (not executed) | Template.FieldValue (Template.SeaLevelPressureShowsAltimeter, Template.SeaLevelPressureIsNeverShown, Template.SeaLevelCounterexample) | Template.CorrectedSeaLevelValue (Template.CorrectedSeaLevelShowsSeaLevel) |

The printed report follows the source: the narrative uses Narrative.Notes and
template mode uses the source's pass. The corrected definitions stand beside them.

Two further discrepancies are reproduced as written, without a corrected model,
because the code does not show which side is meant. The usage text (metar.c:321)
advertises `{observation_time_local}` and `{sky_conditions}`, while the passes
replace `{observation_localtime}` and `{sky_condition}`. Template mode leaves the
advertised names untouched (Template.AdvertisedLocalTimeIsNotReplaced,
Template.AdvertisedSkySummaryIsNotReplaced). Either the usage text or the pass
could be the one to change.
