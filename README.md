# EclipseMenu utility helpers in Dafny

This project models the pure helper functions of EclipseMenu's `src/utils.cpp`, a
Geometry Dash mod menu. It covers:

- `matchesStringFuzzy`, a case-insensitive substring test.
- `getGameMode`, which picks the player's game mode from the player flags, or
  from the stored icon type when there is no player object.
- `gameModeName`, which names a game mode.
- `getMonthName`, a zero-based month table read through `std::array::at`.
- `formatTime`, which renders a duration as `H:MM:SS.mmm`, `M:SS.mmm` or `S.mmm`.
- The show/hide decision of `updateCursorState`.

Each helper is a Dafny function. The properties it promises are stated in its
`ensures` clauses, or in lemmas beside it when they concern several calls or fix a
field of the output.

Modules:

- `Wrappers`: `Option` and `Result`.
- `Ascii`: ASCII upper-casing, standing for `std::toupper`.
- `FuzzyMatch`: the substring search.
- `GameMode`: icon types, player flags, modes and their names.
- `Months`: the month table.
- `Cursor`: the cursor decision.
- `Decimal`: decimal digits and zero padding, standing for `fmt`'s `{}` and `{:0Nd}`.
- `TimeFormat`: `formatTime`, and a reader that parses a clock string back into
  milliseconds. The reader is the partner the round-trip lemmas are stated against.

Inputs that the source reads from the game become parameters:

- The `PlayerObject` pointer becomes `Option<PlayerFlags>`.
- `GameManager::m_playerIconType` becomes an `IconType` argument.
- The `PlayLayer` pointer becomes `Option<PlayLayerState>`.
- Game variable "0024" becomes the boolean `showCursorInLevel`.

`formatTime` takes a `double` number of seconds. Here it takes a natural number of
milliseconds, so the `static_cast<int>` truncations of the double are abstracted away.

## Model

| member | source | states |
|---|---|---|
| Ascii.ToUpper | src/utils.cpp:200-202 | the result is never a lower-case letter; a lower-case letter maps to the upper-case letter at the same alphabet position; every other character is unchanged |
| Ascii.UpperAll | src/utils.cpp:200-202 | upper-casing a string keeps its length and upper-cases each character in place |
| FuzzyMatch.MatchesPrefix | src/utils.cpp:199-203 | true exactly when the needle matches case-insensitively at the start of the string |
| FuzzyMatch.SearchFrom | src/utils.cpp:199-203 | returns the first case-insensitive match position at or after `i`, or the haystack's end when there is none; no position before the result matches |
| FuzzyMatch.MatchesStringFuzzy | src/utils.cpp:198-206 | with a non-empty needle: true iff some position of the haystack holds a case-insensitive copy of the needle. With an empty needle: true iff the haystack is non-empty, because the search returns `begin`. Always false when the needle is longer than the haystack |
| FuzzyMatch.CaseInsensitive | src/utils.cpp:200-201 | haystacks and needles that agree up to upper-casing give the same answer |
| FuzzyMatch.UpperOneHaystackChar | src/utils.cpp:200-201 | replacing one haystack character by its upper-case form does not change the answer |
| FuzzyMatch.UpperOneNeedleChar | src/utils.cpp:200-201 | replacing one needle character by its upper-case form does not change the answer |
| FuzzyMatch.OccursAtIffUpperSlice | src/utils.cpp:199-203 | a case-insensitive match at `i` is the same as the upper-cased needle standing at `i` in the upper-cased haystack |
| FuzzyMatch.MatchesIffUpperSubstring | src/utils.cpp:198-206 | with a non-empty needle, the search succeeds iff the upper-cased needle is a substring of the upper-cased haystack |
| GameMode.ModeOfIcon | src/utils.cpp:127-136 | Ship and Jetpack icons both give Ship; Cube and every unlisted icon type give Cube; each other icon gives its namesake, and only that icon does |
| GameMode.ModeOfPlayer | src/utils.cpp:140-147 | fixed priority: Ship if the ship flag is set, else Ball, else UFO (bird flag), else Wave (dart flag), else Robot, else Spider, else Swing; Cube when no flag is set |
| GameMode.GetGameMode | src/utils.cpp:124-148 | without a player the stored icon type decides; with one, the player's flags decide |
| GameMode.ModeOfPlayerIsFirstSetFlag | src/utils.cpp:140-147 | the player's mode is the mode of the first set flag, in the order ship, ball, bird, dart, robot, spider, swing, and Cube when none is set |
| GameMode.EveryModeReachable | src/utils.cpp:124-148 | every mode is produced by some player and by some stored icon type |
| GameMode.GameModeName | src/utils.cpp:150-162 | the name is never "Unknown", and reading the name back gives the mode |
| GameMode.GameModeNamesDistinct | src/utils.cpp:150-161 | different modes have different names |
| Months.IndexFrom | src/utils.cpp:95-99 | finds the first position of a name in the table at or after `i`, or reports that there is none |
| Months.GetMonthName | src/utils.cpp:94-100 | succeeds exactly for months 0 to 11 and fails with the out-of-range month otherwise; 0 gives "January" and 11 gives "December" |
| Months.MonthNamesDistinct | src/utils.cpp:95-99 | the twelve names are pairwise different |
| Months.MonthNameRoundTrip | src/utils.cpp:94-100 | looking up the name of a valid month finds that month again |
| Cursor.UpdateCursorState | src/utils.cpp:81-92 | the cursor is shown iff it is requested visible, or there is no play layer, or the level is completed, or it is paused, or the show-cursor-in-level variable is set |
| Cursor.HiddenOnlyWhilePlaying | src/utils.cpp:81-92 | hiding happens only when the cursor is not requested visible, inside an unpaused, uncompleted level, with the show-cursor-in-level variable unset; a visible request or a missing play layer always shows |
| Decimal.DigitChar | src/utils.cpp:66-68 | a digit value below ten becomes the decimal digit character of that value |
| Decimal.Digits | src/utils.cpp:66-68 | the `{}` rendering of a number: non-empty decimal digits whose value is the number, with no leading zero when the number is positive |
| Decimal.DigitsLength | src/utils.cpp:66-68 | a number below 10^w has at most w digits |
| Decimal.ZeroPad | src/utils.cpp:66-68 | padding a digit string gives digits of the same value, exactly as long as the string or the width, whichever is longer |
| Decimal.ZeroPadForm | src/utils.cpp:66-68 | padding only puts zeros in front: the padded string ends with the original digits and everything before them is '0' |
| Decimal.Padded | src/utils.cpp:66-68 | the `{:0Nd}` rendering: decimal digits whose value is the number, exactly as long as its plain decimal form or N, whichever is longer; so exactly N long when the number is below 10^N |
| Decimal.PaddedForm | src/utils.cpp:66-68 | the `{:0Nd}` rendering is zeros followed by the plain decimal form, and is the plain decimal form itself when that already has N digits or more |
| Decimal.CountInDigits | src/utils.cpp:66-68 | a string of digits holds no separator |
| TimeFormat.SplitTime | src/utils.cpp:61-64 | seconds below 60 and milliseconds below 1000; total minutes, seconds and milliseconds add up to the duration; hours are the whole hours of the total minutes |
| TimeFormat.DivisionSteps | src/utils.cpp:61-64 | taking whole seconds, then minutes, then hours agrees with dividing the duration directly |
| TimeFormat.LayoutOf | src/utils.cpp:66-68 | the hours layout exactly from one hour up; the minutes layout from one minute up to under an hour; the seconds layout under a minute |
| TimeFormat.HoursText | src/utils.cpp:66 | the hours layout holds exactly two ':' and one '.' |
| TimeFormat.MinutesText | src/utils.cpp:67 | the minutes layout holds exactly one ':' and one '.' |
| TimeFormat.SecondsText | src/utils.cpp:68 | the seconds layout holds no ':' and exactly one '.' |
| TimeFormat.FormatTime | src/utils.cpp:60-69 | the output has two ':' in the hours layout, one in the minutes layout and none in the seconds layout, so the ':' count tells which branch was taken; it always has exactly one '.' |
| TimeFormat.FormatTimeMillis | src/utils.cpp:64-68 | the output ends in '.' and three digits whose value is the duration's milliseconds |
| TimeFormat.FormatTimeSecondsField | src/utils.cpp:63-67 | from one minute up, the milliseconds are preceded by ':' and the seconds below the minute, zero-padded to two digits |
| TimeFormat.SecondsFieldWithHours | src/utils.cpp:66 | in the hours layout, the seconds field is the seconds below the minute, zero-padded to two digits, after a ':' |
| TimeFormat.SecondsFieldWithMinutes | src/utils.cpp:67 | in the minutes layout, the seconds field is the seconds below the minute, zero-padded to two digits, after a ':' |
| TimeFormat.FormatTimeHoursAndMinutes | src/utils.cpp:61-66 | from one hour up, the output starts with the whole hours, then ':', then the total number of minutes, printed in full because it is 60 or more |
| TimeFormat.FormatTimeMinutesLead | src/utils.cpp:62-67 | from one minute up to under an hour, the output starts with the whole minutes, unpadded, before the seconds field |
| TimeFormat.FormatTimeSecondsLead | src/utils.cpp:63-68 | under a minute, the output is the whole seconds, unpadded, before the milliseconds |
| TimeFormat.FormatTimeReadsBack | src/utils.cpp:60-69 | reading the output back gives the duration plus its whole hours a second time, because the minutes field is total minutes |
| TimeFormat.ReadsBackWithHours | src/utils.cpp:61-62 | from one hour up, the output reads back as the duration plus its whole hours |
| TimeFormat.ReadsBackWithMinutes | src/utils.cpp:67 | from one minute up to under an hour, the output reads back as the duration |
| TimeFormat.ReadsBackSecondsOnly | src/utils.cpp:68 | under a minute, the output reads back as the duration |
| TimeFormat.FormatTimeRoundTripIff | src/utils.cpp:60-69 | the output reads back as the duration iff the duration is under an hour |
| TimeFormat.OneHourShowsSixtyMinutes | src/utils.cpp:62-66 | one hour is shown as "1:60:00.000" |
| TimeFormat.FormatTimeFixed | src/utils.cpp:60-69 | the corrected rendering keeps the separators of each layout: two, one or no ':' and exactly one '.' |
| TimeFormat.FixedMinutesField | src/utils.cpp:62-66 | in the corrected rendering from one hour up, the hours and ':' are followed by the minutes below the hour, zero-padded to two digits |
| TimeFormat.FormatTimeFixedMillis | src/utils.cpp:64-68 | the corrected rendering also ends in '.' and the duration's milliseconds |
| TimeFormat.FormatTimeFixedRoundTrip | src/utils.cpp:60-69 | with minutes reduced modulo 60 in the hours layout, every duration reads back as itself |
| TimeFormat.FixedReadsBackWithHours | src/utils.cpp:66 | from one hour up, the corrected rendering reads back as the duration |

## Left out

- src/modules/recorder/recorder.cpp is not part of this model. It is a two-thread producer/consumer handshake around ffmpeg, FMOD and filesystem calls.
- `getRng`, `getClock`, `getTimestamp`, `getRainbowColor`: randomness, the wall clock and float colour maths.
- `hasOpenGLExtension`, `shouldUseLegacyDraw`: a GL driver query and a mod setting.
- `getActualProgress`, `getTPS`, `getPlayerIcon`, `getEclipseUILayer`, `getBaseSize`: float arithmetic over game objects, configuration reads, field reads, UI node creation and platform introspection.
- The `PlatformToolbox::showCursor`/`hideCursor` calls: only which of the two is made is modelled, as a `CursorAction`.
- `Ascii.ToUpper` covers ASCII letters only. Locale-dependent `std::toupper` on other or negative `char` values is not modelled.
- `TimeFormat.FormatTime` takes whole milliseconds, not a `double` of seconds. The truncating casts, negative durations and `int` overflow of the casts are not modelled.
- `GameMode.GameModeName`: a `PlayerMode` value outside the eight enumerators cannot be written in the datatype, so the "Unknown" fallback is unreachable here.
- The reads of `GameManager` (the stored icon type and game variable "0024") are parameters rather than global state.

## Findings

| source | as written | input that shows it | evidently intended | confidence | as-written member | corrected member |
|---|---|---|---|---|---|---|
| src/utils.cpp:62-66 | `minutes` is total minutes, and it is printed after the hours in the hours layout | a duration of 3600 seconds renders as "1:60:00.000", and 3661 seconds as "1:61:01.000" | minutes modulo 60 after the hours, giving "1:00:00.000" | high; not executed | TimeFormat.OneHourShowsSixtyMinutes | TimeFormat.FormatTimeFixedRoundTrip |
