# Verified model of the MessirLogger core

This project models the parts of the logging library whose correctness does not show in any single
function, and proves what they are relied on for. Citations are relative to the root of the library's
repository.

* **Strings.** `Wildcard` is the greedy matcher that returns only to the last star, `Replacement` the
  in-place `replace_all`. Both are loops, proved against a language and a cut that do not mention them.
* **Substitution engine.** `Template` proves that walking an unordered map and editing one string with
  `find`/`replace` is the same as filling placeholders, and for which values it is; `Placeholders` holds
  the three key tables, `TimeText` and `Calendar` the time fields, `LogFormat` the log line, `Colours` the
  escape codes of the console target.
* **File names.** `PurgePattern` runs the two parallel translations of one file name format, into a name
  and into a regular expression, and proves that the second finds the first; `Regex` and `Fragments` give
  the expressions their meaning (the subset of section 15.10 of ECMA-262, 3rd edition, that the pattern
  uses, matched as a whole). `PlusSigns`, `PurgeLimits`, `PurgeTime`, `PurgeExact` and `PurgeHours` show
  exactly which generated names are not found, `PurgeNames` exactly which names are. `Fields` says, by the
  literal name of every placeholder, what it stands for in lines and file names.
* **Scheduling.** `Schedule` is the arithmetic of the aligned grid, `PeriodicCaller` the thread that calls
  a function on it, `Rotation` the rotation of log files by time and by size.
* **Configuration.** `Config` holds the configuration objects, `Dispatch` the dispatch table with
  `Configure`, `Get_config` and `Write_log`, `Json` the member-driven serializer over a universe of types,
  `ConfigJson` the logger configuration as an instance of it, `Backup` the choice of a backup name.
* **Threads.** `AsyncLogger` is the asynchronous logger as a system of atomic steps: any number of
  producers, the logging thread, the maintenance thread, and whoever starts, stops or reconfigures.

Times are milliseconds since the epoch. A target is identified by its position in the target list, which
only grows until it is cleared together with the keys. What the environment decides (clock readings, file
sizes, whether a write succeeds, how late a wait ends, which thread moves next, in which order an unordered
container is walked) is a parameter or a nondeterministic choice. A `std::function` of the caller is
represented by how long it runs and what it asks for.

What the proofs say about the code that a reader might not expect:

* A pattern star that meets a `*` of the string is used up on it, because equality is tried first; a string
  is decided correctly for all patterns exactly when it has no `*`, and so is a pattern for all strings.
* `replace_all` with an empty search text never ends, for every text and replacement.
* A message containing what could be taken for another placeholder makes the log line depend on the order
  of the map; the exact condition is `Template.Inert`.
* The branch for unknown kinds in `LogKindSet::To_string` cannot be reached.
* The expression for `%%time` leaves out the seconds, and `+` in a configured text is not escaped. With the
  default format, a file is found again exactly if none of its five configured texts holds a `+`. A `+` or
  `%%time` right beside `%%procname` does no harm: "a+%%procname" and "%%procname:%%time" are found, because
  the process name takes the `+` or the hours; "%%procname_%%time" never is.
* Time stamps before the epoch can be rounded up; `Schedule.RoundsDown` is the exact condition.
* The exception of a file name whose directory cannot be made is not caught in the maintenance thread.
* A null pointer in a vector is written but cannot be read; a null member comes back only into an object in
  which it is null.
* A call requested early while the thread waits is lost.
* With a log frequency but without a storage duration, maintenance uses an interval that was never set.
* `Configure` with synchronous mode over waiting records lets later records overtake them; records are in
  order exactly in the runs without a record logged in that mode while others wait.
* Target code that logs to its own logger during maintenance blocks `Stop` for ever.

## Model

| member | source | states |
|---|---|---|
| Wildcard.MatchesWildcard | Source/SharedLibraries/CommonTools/include/StringHelpers.h:132-153 | a true result is a match in the language of the pattern ('*' any text, '?' any character); a match is found whenever the string or the pattern has no '*'; at most (string length + 1) * (pattern length + 1) rounds |
| Wildcard.SkipTrailingStars | Source/SharedLibraries/CommonTools/include/StringHelpers.h:151-152 | the rest of the pattern is accepted exactly if it is stars only |
| Wildcard.GreedySound | Source/SharedLibraries/CommonTools/include/StringHelpers.h:135-152 | for all patterns and strings, acceptance by the greedy scan implies membership in the language |
| Wildcard.GreedyComplete | Source/SharedLibraries/CommonTools/include/StringHelpers.h:139-146 | keeping only the last star loses no match of a string without '*' |
| Wildcard.StarInStringLosesMatch | Source/SharedLibraries/CommonTools/include/StringHelpers.h:136-142 | every string with a '*' has a pattern that it matches and that is refused |
| Wildcard.DecidedExactlyWithoutStar | Source/SharedLibraries/CommonTools/include/StringHelpers.h:132-153 | a string is decided correctly for every pattern if and only if it contains no '*' |
| Wildcard.StarInPatternLosesMatch | Source/SharedLibraries/CommonTools/include/StringHelpers.h:136-146 | every pattern with a '*' matches a string on which it is refused, because equality reads the pattern itself and no star is left to turn back to |
| Wildcard.PatternDecidedExactlyWithoutStar | Source/SharedLibraries/CommonTools/include/StringHelpers.h:132-153 | a pattern is decided correctly for every string if and only if it contains no '*' |
| Replacement.ReplaceAll | Source/SharedLibraries/CommonTools/include/StringHelpers.h:94-102 | the edited buffer is the leftmost non-overlapping substitution, the count is the number of occurrences replaced, the length grows by count times the difference; the loop ends though the replacement may contain the search text |
| Replacement.CutIsLeftmost | Source/SharedLibraries/CommonTools/include/StringHelpers.h:96-101 | the cut that defines the substitution glues back to the text, and each piece ends at the first occurrence behind it |
| Replacement.LeftmostCutUnique | Source/SharedLibraries/CommonTools/include/StringHelpers.h:96-101 | there is only one such cut of a text, so which occurrences are replaced is fixed without the loop |
| Replacement.SubstituteIsJoin | Source/SharedLibraries/CommonTools/include/StringHelpers.h:94-102 | substituting is cutting at the leftmost occurrences and gluing with the replacement |
| Replacement.StopsExactlyOnNonEmptySearch | Source/SharedLibraries/CommonTools/include/StringHelpers.h:96-100 | the loop ends if and only if the search text is not empty |
| Template.ReplacePlaceholders | Source/SharedLibraries/CommonTools/Logger.cpp:395-400 | the loop over the map applies exactly one edit for each key, in some order that visits every key once |
| Template.ReplaceIsFill | Source/SharedLibraries/CommonTools/Logger.cpp:396-399 | one find and replace on the string is filling the first hole of the key in the token sequence |
| Template.EditsRefineFilling | Source/SharedLibraries/CommonTools/Logger.cpp:395-400 | any sequence of edits refines filling all first holes at the same time |
| Template.SubstitutionRefinesFilling | Source/SharedLibraries/CommonTools/Logger.cpp:380-400 | for every well-formed format and every order of the map the result is the simultaneous filling |
| Template.TwoPassesAreOne | Source/SharedLibraries/CommonTools/Logger.cpp:395-402 | a pass over one table followed by a pass over another is one pass over both |
| Template.FillsExactlyWhenInert | Source/SharedLibraries/CommonTools/Logger.cpp:380-402 | with plain values but one, all formats in all orders are filled if and only if no end of that value can be taken for another key |
| Template.OrderFreeExactlyWhenInert | Source/SharedLibraries/CommonTools/Logger.cpp:395-400 | the order of the map cannot be seen in any result if and only if the same condition holds |
| Placeholders.NoKeyBeginsAnother | Source/SharedLibraries/CommonTools/Logger.cpp:380-393 | among all record, time and file name keys none begins another |
| Placeholders.AllKeysTable | Source/SharedLibraries/CommonTools/Logger.cpp:475-488 | so all three tables together are prefix free |
| Calendar.DatesFollowDays | Source/SharedLibraries/CommonTools/Logger.cpp:416-423 | the date computed for a day number grows with the day number |
| Calendar.DateOfDayNumber | Source/SharedLibraries/CommonTools/Logger.cpp:416-419 | every valid date is the date of its day number |
| Calendar.YearStartIs | Source/SharedLibraries/CommonTools/Logger.cpp:416-419 | the days before a year follow the Gregorian leap year rule in closed form |
| TimeText.FormatTime | Source/SharedLibraries/CommonTools/Logger.cpp:409-498 | the time pass: one edit for each time key, in some order of the map |
| TimeText.InRangeExactly | Source/SharedLibraries/CommonTools/Logger.cpp:420-462 | the year is printed with four digits exactly for the times before the year 10000 |
| TimeText.TimeValuesArePlain | Source/SharedLibraries/CommonTools/Logger.cpp:460-488 | no time text contains a percent sign, for any time |
| TimeText.MonthNameLetters | Source/SharedLibraries/CommonTools/Logger.cpp:460-481 | the three characters cut from the list of months are letters, for every month |
| TimeText.StampsCompareAsTimes | Source/SharedLibraries/CommonTools/Logger.cpp:461-474 | date, hour, minute, second and millisecond text of the years 1970 to 9999 is 23 characters long and compares lexicographically as the times compare |
| TimeText.StampParsesBack | Source/SharedLibraries/CommonTools/Logger.cpp:416-474 | that text parses back to the same millisecond |
| TimeText.FormatGivesStamp | Source/SharedLibraries/CommonTools/Logger.cpp:475-495 | it is what `Format_time` makes of "%%datatime.%%ms" in every order of the map |
| LogFormat.NoUnknownKinds | Source/SharedLibraries/CommonTools/Logger.cpp:64-105 | the number of unknown kinds is always zero, whatever bits are set |
| LogFormat.FormatLogMessage | Source/SharedLibraries/CommonTools/Logger.cpp:371-405 | the line of the record pass and the time pass; for every well-formed format and every record that holds nothing to be taken for a placeholder, the format with the first hole of each key filled |
| LogFormat.LineIsFilledExactlyWhenInert | Source/SharedLibraries/CommonTools/Logger.cpp:371-405 | every format and both orders give the filled line if and only if the message holds nothing that could be taken for another placeholder |
| LogFormat.LineIsFilled | Source/SharedLibraries/CommonTools/Logger.cpp:371-405 | for such a message the line is the format with the first hole of each key filled |
| Fields.TextsInLine | Source/SharedLibraries/CommonTools/Logger.cpp:380-393 | module, entity and message stand in the line as they are, each under its own placeholder, the line number in digits |
| Fields.SourceInLine | Source/SharedLibraries/CommonTools/Logger.cpp:384-388 | the source file is what stands behind the last separator, or all of it |
| Fields.LevelInLine | Source/SharedLibraries/CommonTools/Logger.cpp:18-29 | the printed name of every level |
| Fields.KindsInLine | Source/SharedLibraries/CommonTools/Logger.cpp:82-114 | "ALL" for exactly the three known kinds, otherwise the names of the set ones in their order with commas between; other bits are not shown |
| Fields.ClockDenotes | Source/SharedLibraries/CommonTools/Logger.cpp:427-474 | hour, minute, second and millisecond, each formatted alone, are digits that make up the time of the day |
| Fields.DateDenotes | Source/SharedLibraries/CommonTools/Logger.cpp:416-474 | year, month and day, each formatted alone, are digits that make up the date of the day |
| Fields.WholeDenotes | Source/SharedLibraries/CommonTools/Logger.cpp:470-488 | the composed time placeholders in terms of the simple ones |
| Fields.MonthDenotes | Source/SharedLibraries/CommonTools/Logger.cpp:460-481 | the name of the month belongs to its number |
| Fields.LevelOnConsole | Source/SharedLibraries/CommonTools/LogTargetStandardOutput.cpp:14-41 | on the console every level stands in its own colour, switched off behind it |
| Fields.TextsInName | Source/SharedLibraries/CommonTools/LogTargetFile.cpp:110-118 | path, prefix, filename, title, suffix, process number and name stand in a file name under their own placeholders |
| Colours.ModifyFormat | Source/SharedLibraries/CommonTools/LogTargetStandardOutput.cpp:14-41 | every "%%level" of the format is wrapped in the codes of the level, and nothing changes for an unknown level |
| Colours.ModifyIsWrap | Source/SharedLibraries/CommonTools/LogTargetStandardOutput.cpp:18-40 | wrapping the string is wrapping the level holes of the token sequence, all of them |
| Colours.FormatColoured | Source/SharedLibraries/CommonTools/Logger.cpp:371-405 | the console line, which without its escape codes is that same filled format |
| Colours.ColoursOnlyAddCodes | Source/SharedLibraries/CommonTools/LogTargetStandardOutput.cpp:14-54 | deleting the escape codes from the coloured line gives the plain line, for every well-formed format and every order |
| PurgePattern.BuildFilename | Source/SharedLibraries/CommonTools/LogTargetFile.cpp:105-127 | the new file name after the name pass and the time pass |
| PurgePattern.EscapeAll | Source/SharedLibraries/CommonTools/LogTargetFile.cpp:335-347 | the loop puts a backslash before every special character and before no other |
| PurgePattern.BuildPattern | Source/SharedLibraries/CommonTools/LogTargetFile.cpp:303-400 | the pattern after the fixed pass, the escaping and the volatile pass |
| PurgePattern.TextFragment | Source/SharedLibraries/CommonTools/LogTargetFile.cpp:333-347 | escaping is undone by parsing: the escaped text parses wherever it stands and matches the text |
| PurgePattern.NameIsFilled | Source/SharedLibraries/CommonTools/LogTargetFile.cpp:110-127 | the file name does not depend on the order of the two maps |
| PurgePattern.PatternIsFilled | Source/SharedLibraries/CommonTools/LogTargetFile.cpp:319-394 | the pattern does not depend on the order of the two maps, and escaping touches the literal texts only |
| PurgePattern.PatternRecognisesName | Source/SharedLibraries/CommonTools/LogTargetFile.cpp:303-400 | every generated name matches the pattern built from the same format, for formats without `%%time`, no '+' in a text that is used, values without '%', years up to 9999 and all orders of the four maps |
| PurgePattern.BuiltPatternFindsBuiltName | Source/SharedLibraries/CommonTools/LogTargetFile.cpp:105-127 | the same for whatever name and pattern the two methods return |
| PurgeNames.PatternFindsExactly | Source/SharedLibraries/CommonTools/LogTargetFile.cpp:303-400 | for every format and configuration without '+' in use, the pattern finds a name if and only if it is put together from the texts and, for each placeholder, from any name of its kind: so many digits, three letters, a date, anything |
| PurgeNames.BuiltPatternFindsExactly | Source/SharedLibraries/CommonTools/LogTargetFile.cpp:303-400 | the same for the pattern that is built |
| PlusSigns.EscapedMatchesExactly | Source/SharedLibraries/CommonTools/LogTargetFile.cpp:335-347 | an escaped text matches itself if and only if it holds no '+', for every text, also where the pattern is a syntax error |
| PlusSigns.KeepsPiece | Source/SharedLibraries/CommonTools/LogTargetFile.cpp:335-394 | whatever stands behind it, also a '+' that quantifies it, the expression of a piece matches no '+' and at least as many characters other than digits as the text of the piece has |
| PurgeLimits.BoundedPiece | Source/SharedLibraries/CommonTools/LogTargetFile.cpp:351-372 | without '+' the expression of a piece matches at most as many characters other than digits as its text has; `%%pid` matches digits only |
| PurgeTime.ParseAround | Source/SharedLibraries/CommonTools/LogTargetFile.cpp:335-362 | how a pattern with `%%time` parses, if it does, with any '+' in front of it and anything behind |
| PurgeTime.TimeDefeats | Source/SharedLibraries/CommonTools/LogTargetFile.cpp:351-362 | behind text whose matches have the solid characters of the text, the only place for the expression of `%%time` has the ':' of the seconds in the way |
| PurgeTime.NotFoundWithoutProcessNameBefore | Source/SharedLibraries/CommonTools/LogTargetFile.cpp:351-372 | a format with `%%time` and no `%%procname` before it is never found, with or without '+', whatever stands behind |
| PurgeExact.CutBefore | Source/SharedLibraries/CommonTools/LogTargetFile.cpp:335-394 | a match of the whole pattern begins with a match of the part in front, without '+' and with all its solid characters, whatever follows |
| PurgeExact.CutBehind | Source/SharedLibraries/CommonTools/LogTargetFile.cpp:335-394 | and ends with such a match of the part behind, also where that begins with a '+' that quantifies what stands in front |
| PurgeExact.PlusApartNotFound | Source/SharedLibraries/CommonTools/LogTargetFile.cpp:335-372 | a '+' in front of `%%procname` with a solid character behind it, or behind `%%procname` with a solid character in front of it, defeats the pattern |
| PurgeExact.FoundExactly | Source/SharedLibraries/CommonTools/LogTargetFile.cpp:303-400 | for every format in which solid text stands between `%%procname` (if used) and every place that may hold a '+', and in which `%%time` (if used) is not behind `%%procname`, every configuration without '%', and all orders of the four maps, the name is found if and only if the format does not use `%%time` and no text in use holds a '+' |
| PurgeExact.BuiltNameFoundExactly | Source/SharedLibraries/CommonTools/LogTargetFile.cpp:105-127 | the same for whatever name and pattern the two methods return |
| PurgeExact.DefaultFoundExactly | Source/SharedLibraries/CommonTools/include/LogTargetFile.h:58 | with the default format: found if and only if path, prefix, filename, title and suffix hold no '+' |
| PurgeExact.FoundWithPlusBeside | Source/SharedLibraries/CommonTools/LogTargetFile.cpp:335-372 | one '+' directly before `%%procname` behind other text, or directly behind it, does no harm: it repeats what stands before it, and the process name takes the '+' of the name |
| PurgeHours.FoundExactlyWithHours | Source/SharedLibraries/CommonTools/LogTargetFile.cpp:351-372 | for every format with `%%time` and no '+' in use, `%%procname` or not, the name is found if and only if the pattern before `%%time` also matches the name before it with the hours and a colon behind |
| PurgeHours.FoundExactlyBetween | Source/SharedLibraries/CommonTools/LogTargetFile.cpp:351-372 | with nothing but text between `%%procname` and `%%time`, if and only if that text, followed by the hours and a colon and moved on by three characters, is the text again |
| PurgeHours.RepeatsCases | Source/SharedLibraries/CommonTools/LogTargetFile.cpp:351-372 | so it always is for no text and for ":", and never for text that does not end in ':' |
| PurgeHours.FoundBehindProcessName | Source/SharedLibraries/CommonTools/LogTargetFile.cpp:361-372 | with `%%procname` directly before `%%time` every name is found |
| Schedule.TimeInterval.constructor | Source/SharedLibraries/CommonTools/ScheduleUtils.cpp:9-20 | interval, offset and time as given, without a check |
| Schedule.TimeInterval.SetOffset | Source/SharedLibraries/CommonTools/ScheduleUtils.cpp:26-37 | the offset is set exactly if it is at least zero and less than the interval, each error leaves it as it was |
| Schedule.TimeInterval.GetCurrentTimestamp | Source/SharedLibraries/CommonTools/ScheduleUtils.cpp:43-59 | the result is the greatest grid point not after the time, exactly under `RoundsDown` |
| Schedule.TimeInterval.GetNextTimestamp | Source/SharedLibraries/CommonTools/ScheduleUtils.cpp:61-70 | the result is the least grid point after the time, exactly under `RoundsDown` |
| Schedule.TimeInterval.GetMillisecondsUntilNextTimestamp | Source/SharedLibraries/CommonTools/ScheduleUtils.cpp:72-81 | the wait lies in (0, interval] exactly under `RoundsDown`, and ends at the next grid point or less than a second later |
| Schedule.CurrentIsFloorExactly | Source/SharedLibraries/CommonTools/ScheduleUtils.cpp:43-70 | for every time and every offset: floor and successor on the grid if and only if `RoundsDown` |
| Schedule.RoundsDownWithValidOffset | Source/SharedLibraries/CommonTools/ScheduleUtils.cpp:26-59 | with an accepted offset the condition fails only for some times before the epoch |
| Schedule.InstantIsFloorExactly | Source/SharedLibraries/CommonTools/ScheduleUtils.cpp:43-59 | the same at the resolution of the clock, where the conversion to seconds also rounds towards zero |
| Schedule.StampsAreMonotone | Source/SharedLibraries/CommonTools/ScheduleUtils.cpp:43-70 | both stamps are monotone in the time, for every time and every offset, also where they are not rounded down |
| Schedule.RebasingStays | Source/SharedLibraries/CommonTools/ScheduleUtils.cpp:43-70 | starting over from a grid point returns that point, and one interval later as the next |
| PeriodicCaller.ScheduledCaller.ThreadLoop | Source/SharedLibraries/CommonTools/ScheduleUtils.cpp:130-152 | the calls of the thread for every behaviour of the environment; requests made during the wait have no effect |
| PeriodicCaller.ScheduledCaller.Start | Source/SharedLibraries/CommonTools/ScheduleUtils.cpp:122-153 | a second start does nothing; otherwise the calls form a run |
| PeriodicCaller.ScheduledCaller.RequestCallEarly | Source/SharedLibraries/CommonTools/ScheduleUtils.cpp:108-111 | the request replaces an earlier one |
| PeriodicCaller.PlannedCallIsPrompt | Source/SharedLibraries/CommonTools/ScheduleUtils.cpp:133-150 | a call is never before its boundary and less than one second plus the latency of its own wait after it |
| PeriodicCaller.BoundariesIncrease | Source/SharedLibraries/CommonTools/ScheduleUtils.cpp:133-150 | no boundary is served twice, whatever early calls come between |
| PeriodicCaller.NextBoundaryExactly | Source/SharedLibraries/CommonTools/ScheduleUtils.cpp:133-150 | the following boundary is served next if and only if lateness and function time stay below the interval |
| PeriodicCaller.NeverDrifts | Source/SharedLibraries/CommonTools/ScheduleUtils.cpp:122-153 | after any number of cycles in time, call i is still within a second and one latency of first boundary plus i intervals |
| PeriodicCaller.EveryCycleCalls | Source/SharedLibraries/CommonTools/ScheduleUtils.cpp:130-150 | until a stop every cycle makes its call: at the boundary, or, if one was asked for outside the wait, after the time asked for and its latency, at once if that is negative |
| PeriodicCaller.StopEndsCalls | Source/SharedLibraries/CommonTools/ScheduleUtils.cpp:144-147 | nothing is called after a stop request |
| Rotation.FileTarget.UpdateFilename | Source/SharedLibraries/CommonTools/LogTargetFile.cpp:132-156 | the new name is in use and the interval, if there is one, starts over; a name whose directory or pattern is refused throws and leaves both as they were |
| Rotation.FileTarget.Setup | Source/SharedLibraries/CommonTools/LogTargetFile.cpp:169-215 | sizes below 10 MB are raised, zero is kept; the file is open under the new name if it can be opened and was not open; with a storage duration the interval starts and the purge worker runs; a refused name leaves all but the size |
| Rotation.FileTarget.Maintenance | Source/SharedLibraries/CommonTools/LogTargetFile.cpp:217-247 | rotates and reopens exactly if the time is up or the file is too large and the name is accepted; the size decides exactly if the limit is set, the file there and larger; uses the missing interval exactly if a frequency is set and there is no interval |
| Rotation.RunMaintenance | Source/SharedLibraries/CommonTools/LogTargetFile.cpp:217-247 | the outcomes of a whole run of ticks, up to the first exception |
| Rotation.OutcomeExactly | Source/SharedLibraries/CommonTools/LogTargetFile.cpp:217-247 | at every tick of a run: rotated by size if and only if the limit is set and the file there and larger, by time if and only if a boundary lies between the last move of the interval and the tick, kept if neither |
| Rotation.SizeAlone | Source/SharedLibraries/CommonTools/LogTargetFile.cpp:231-237 | without a log frequency the size alone decides |
| Rotation.TimeIsUpExactly | Source/SharedLibraries/CommonTools/LogTargetFile.cpp:222-228 | a tick rotates by time if and only if a boundary lies strictly between the last move of the interval and the tick |
| Rotation.FreshAfterTick | Source/SharedLibraries/CommonTools/LogTargetFile.cpp:217-247 | after every tick no passed boundary is still to be served |
| Rotation.BoundaryBetweenRotations | Source/SharedLibraries/CommonTools/LogTargetFile.cpp:151-155 | two rotations by time have a boundary between them |
| Rotation.FirstTickRotatesExactly | Source/SharedLibraries/CommonTools/LogTargetFile.cpp:217-247 | the first tick after a boundary rotates by time unless an earlier rotation was under way when the boundary passed; for the last boundary before the tick, only then |
| Rotation.SizesDoNotMatter | Source/SharedLibraries/CommonTools/LogTargetFile.cpp:231-246 | rotations by size neither delay nor add rotations by time: those depend on the clock alone, if no boundary passes during a tick |
| Dispatch.Logger.constructor | Source/SharedLibraries/CommonTools/include/Logger.h:604-653 | a new logger has no targets and no keys |
| Dispatch.Logger.Configure | Source/SharedLibraries/CommonTools/Logger.cpp:758-813 | the new state, the key invariant, and that every record goes where it went before plus where the matching entries ask |
| Dispatch.Logger.CreateTargets | Source/SharedLibraries/CommonTools/Logger.cpp:765-775 | a target for each configuration of a known type, loaded with it, behind the existing ones |
| Dispatch.Logger.CreateKeys | Source/SharedLibraries/CommonTools/Logger.cpp:777-812 | the keys after all entries, with the invariant kept |
| Dispatch.Logger.AddDispatchEntry | Source/SharedLibraries/CommonTools/Logger.cpp:779-811 | one entry merged or appended, its key erased if no target was found, whatever the order of the names |
| Dispatch.Logger.GetConfig | Source/SharedLibraries/CommonTools/Logger.cpp:730-756 | the exported configuration of the state |
| Dispatch.Logger.AddTarget | Source/SharedLibraries/CommonTools/Logger.cpp:815-831 | a target is added exactly if its name is not taken; no key changes |
| Dispatch.Logger.Clear | Source/SharedLibraries/CommonTools/Logger.cpp:837-842 | targets and keys are gone, the fallback target only if the new configuration does not use it |
| Dispatch.Logger.CollectTargets | Source/SharedLibraries/CommonTools/Logger.cpp:664-679 | a target is collected if and only if some key lists it, the level of the record is not below that of the key, and the kinds are all on one side or have one in common |
| Dispatch.SelectedExactly | Source/SharedLibraries/CommonTools/Logger.cpp:669-679 | the same of the selection in terms of which the other results are stated |
| Dispatch.RaisingLevelLosesNoTarget | Source/SharedLibraries/CommonTools/Logger.cpp:671-673 | a more severe record goes to every target the record goes to |
| Dispatch.Logger.WriteLog | Source/SharedLibraries/CommonTools/Logger.cpp:664-697 | each target that a listening key lists is written once or fails once, no other is touched, and the fallback target gets a notice and a copy naming the target for each failure |
| Dispatch.FallbacksInPairs | Source/SharedLibraries/CommonTools/Logger.cpp:685-695 | for each failed target a notice, then the record with the name of the target before its entity and nothing else changed |
| Dispatch.WrittenExactly | Source/SharedLibraries/CommonTools/Logger.cpp:506-540 | a target has written the record if and only if it did at once, or after it was refreshed |
| Dispatch.WriteEach | Source/SharedLibraries/CommonTools/Logger.cpp:681-696 | the same for any set of targets, in any order |
| Dispatch.AddEntryIs | Source/SharedLibraries/CommonTools/Logger.cpp:779-811 | under the invariant only a key that was just appended is ever erased |
| Dispatch.EntryKeepsKeysOk | Source/SharedLibraries/CommonTools/Logger.cpp:779-811 | keys stay distinct in level and kinds, with targets, and those exist |
| Dispatch.RoutingPreserved | Source/SharedLibraries/CommonTools/Logger.cpp:777-812 | the targets selected for any record are the old ones and the first target bearing each name of the matching entries; merging, skipping and erasing change nothing |
| Dispatch.NormalisationExactly | Source/SharedLibraries/CommonTools/Logger.cpp:730-813 | exporting after configuring returns the configuration if and only if it is in normal form, and exporting again changes nothing |
| Dispatch.ExportKeepsRouting | Source/SharedLibraries/CommonTools/Logger.cpp:730-813 | an empty logger configured with the exported configuration has the very same keys, also with names used twice |
| Dispatch.KnownTypes | Source/SharedLibraries/CommonTools/Logger.cpp:525-538 | the types 0 and 1 make consoles, 2 a file, no other is known |
| Dispatch.EmptyTextsGetDefaults | Source/SharedLibraries/CommonTools/LogTargetFile.cpp:249-275 | what a new target keeps of its configuration: every value as it is, texts left empty as the literal defaults |
| Dispatch.LoadingKeepsWhatIsEmpty | Source/SharedLibraries/CommonTools/LogTargetFile.cpp:249-264 | configuring again keeps the texts that are left empty, but for the path |
| Dispatch.NormalTargetRoundTrip | Source/SharedLibraries/CommonTools/LogTargetFile.cpp:249-275 | loading a target from a normal configuration and exporting it returns the configuration |
| AsyncLogger.MutexExcludes | Source/SharedLibraries/CommonTools/Logger.cpp:833-860 | every call can be made exactly while nobody holds the mutex; the swap of the logging thread and a call back need it free; what its holder does, only the holder can do |
| AsyncLogger.StartHoldsMutex | Source/SharedLibraries/CommonTools/Logger.cpp:636-652 | `Start` accepts its own records only, moves none, and gives the mutex back |
| AsyncLogger.LoggingMovesNothing | Source/SharedLibraries/CommonTools/Logger.cpp:850-860 | logging moves no thread; the last record of `Reconfigure` gives the mutex back, and a call back ends |
| AsyncLogger.EveryTargetMayLog | Source/SharedLibraries/CommonTools/Logger.cpp:606-616 | every target that is maintained may log, and is maintained further once it could |
| AsyncLogger.ConsistentStep | Source/SharedLibraries/CommonTools/Logger.cpp:579-662 | who can be where and who has records in hand, kept by every step |
| AsyncLogger.StepHasEffect | Source/SharedLibraries/CommonTools/Logger.cpp:699-713 | every step accepts one record, writes the first waiting one, configures, or leaves the waiting records in their order |
| AsyncLogger.NothingLostOrDuplicated | Source/SharedLibraries/CommonTools/Logger.cpp:699-713 | in every run, with any calls of `Configure`, each accepted record is written once or waits in one place |
| AsyncLogger.InOrderStepExactly | Source/SharedLibraries/CommonTools/Logger.cpp:850-860 | a step spoils the order of accepted, written, batch and buffer if and only if it logs in synchronous mode while a different record waits |
| AsyncLogger.InOrderExactly | Source/SharedLibraries/CommonTools/Logger.cpp:699-713 | a run is in order all the time if and only if it has no such step |
| AsyncLogger.FirstInFirstOut | Source/SharedLibraries/CommonTools/Logger.cpp:850-860 | in every run without such a step, accepted is processed, then batch, then buffer |
| AsyncLogger.OrderlyRunKeepsOrder | Source/SharedLibraries/CommonTools/Logger.cpp:758-763 | a run that does not switch to synchronous mode over waiting records has none |
| AsyncLogger.SwitchBreaksOrder | Source/SharedLibraries/CommonTools/Logger.cpp:758-763 | after a switch over waiting records the next record is such a step, whatever it is |
| AsyncLogger.StopLeavesNothing | Source/SharedLibraries/CommonTools/Logger.cpp:654-662 | when `Stop` returns, batch and buffer are empty and everything accepted has been written, in order |
| AsyncLogger.NothingAcceptedWhileStopping | Source/SharedLibraries/CommonTools/Logger.cpp:654-662 | no record is accepted from taking the lock to the end of the drain |
| AsyncLogger.RoutedAsAccepted | Source/SharedLibraries/CommonTools/Logger.cpp:833-848 | in a run that calls `Configure` only while no record waits, every record is routed with the configuration in force when it was accepted |
| AsyncLogger.TaggedStepExactly | Source/SharedLibraries/CommonTools/Logger.cpp:758-763 | a step spoils that if and only if it is a `Configure` over waiting records |
| AsyncLogger.InitialIsFine | Source/SharedLibraries/CommonTools/include/Logger.h:604-653 | a new logger satisfies all invariants of the runs |
| AsyncLogger.ConfigurationBoundary | Source/SharedLibraries/CommonTools/Logger.cpp:833-848 | for every interleaving, also with later calls of `Configure` while nothing waits, the records accepted before `Reconfigure` took the lock are written first and with the old configurations, all others with later ones |
| AsyncLogger.StartedThreadsRun | Source/SharedLibraries/CommonTools/Logger.cpp:590-652 | after `Start` the maintenance thread runs, and the logging thread if the mode is asynchronous |
| AsyncLogger.LookTriesExactly | Source/SharedLibraries/CommonTools/Logger.cpp:703-708 | after its look the logging thread tries the lock if and only if a record waits, and takes all that wait |
| AsyncLogger.WaitingRecordsAreWritten | Source/SharedLibraries/CommonTools/Logger.cpp:579-588 | whatever the other threads do, as long as nobody stops the logging thread and it gets the lock when it tries, all records accepted so far are written after at most five of its steps more than records wait |
| AsyncLogger.CatchesUp | Source/SharedLibraries/CommonTools/Logger.cpp:699-713 | with a free mutex and wherever it is, the logging thread alone writes exactly the waiting records |
| AsyncLogger.MaintenanceRound | Source/SharedLibraries/CommonTools/Logger.cpp:606-619 | a round of the maintenance thread comes to every target and back to its test |
| AsyncLogger.ReconfigureRestarts | Source/SharedLibraries/CommonTools/Logger.cpp:833-848 | after its drain `Reconfigure` has the new configuration and mode in force, the threads running and the mutex given back |
| AsyncLogger.LoggingThreadExits | Source/SharedLibraries/CommonTools/Logger.cpp:579-604 | while `Stop` holds the mutex and waits, the logging thread takes at most its rank of steps, whatever others do, and always has one until it exits |
| AsyncLogger.MaintenanceThreadExits | Source/SharedLibraries/CommonTools/Logger.cpp:606-634 | the same for the maintenance thread if target code does not log to this logger |
| AsyncLogger.BlockedForever | Source/SharedLibraries/CommonTools/Logger.cpp:606-634 | once such a call waits for the mutex, no continuation ends |
| AsyncLogger.StopReturnsExactly | Source/SharedLibraries/CommonTools/Logger.cpp:654-662 | a waiting `Stop` can still return if and only if the maintenance thread is not inside such a call |
| AsyncLogger.CallbackBlocksStop | Source/SharedLibraries/CommonTools/LogTargetFile.cpp:396-397 | a target that logs during maintenance can close that trap while `Stop` waits |
| Json.Serialize | Source/SharedLibraries/CommonTools/include/SerializerJSON.h:533-615 | the JSON tree of a value of any type of the universe, or the exception if a class refuses what it wrote |
| Json.SerializeMembers | Source/SharedLibraries/CommonTools/include/SerializerJSON.h:589-595 | the JSON object of the exposed members, null pointers left out, or the exception of a member |
| Json.SerializeObject | Source/SharedLibraries/CommonTools/Logger.cpp:178-186 | the members, and the exception if they do not pass the schema of the class |
| Json.OneRefusalIsEnough | Source/SharedLibraries/CommonTools/Logger.cpp:178-186 | one element that is refused refuses the vector, one member the object |
| Json.Deserialize | Source/SharedLibraries/CommonTools/include/SerializerJSON.h:738-1028 | the value read, or the failure |
| Json.DeserializeMembers | Source/SharedLibraries/CommonTools/include/SerializerJSON.h:720-740 | members found are replaced, members missing keep their value, the first failure ends it |
| Json.DeserializeItems | Source/SharedLibraries/CommonTools/include/SerializerJSON.h:932-999 | the vector of the elements in their order |
| Json.DeserializeStrings | Source/SharedLibraries/CommonTools/include/SerializerJSON.h:1006-1019 | the set with every element inserted |
| Json.InsertKeepsSorted | Source/SharedLibraries/CommonTools/include/SerializerJSON.h:1016-1017 | insertion keeps the order of the set and adds exactly the element |
| Json.MembersWritten | Source/SharedLibraries/CommonTools/include/SerializerJSON.h:624-710 | with distinct names every member is found under its name with its own value |
| Json.WrittenPassesExactly | Source/SharedLibraries/CommonTools/Logger.cpp:178-186 | what a class writes passes its own schema if and only if its null pointers leave no required member out, not all members, and no described member empty |
| Json.RoundTripExactly | Source/SharedLibraries/CommonTools/include/SerializerJSON.h:533-1028 | for every type, every value and whatever was stored before, reading what was written restores every field if and only if no vector holds a null pointer, null members were null before and may be missing, and the objects behind pointers are of the class they name |
| Json.ObjectRoundTrip | Source/SharedLibraries/CommonTools/include/SerializerJSON.h:720-728 | the same for the members of one object, validation included |
| Json.RestoredPasses | Source/SharedLibraries/CommonTools/Logger.cpp:178-186 | what is restored was written without an exception |
| Json.RestoresExactlyIfAgrees | Source/SharedLibraries/CommonTools/include/SerializerJSON.h:738-1028 | without null pointers everything is restored if and only if the objects behind pointers are of the class they name, whatever was stored before |
| ConfigJson.LoggerConfigFits | Source/SharedLibraries/CommonTools/Logger.cpp:311-322 | names are distinct and the schemas describe the members, in all classes of the configuration |
| ConfigJson.FileSchemaDescribes | Source/SharedLibraries/CommonTools/LogTargetFile.cpp:56-82 | the extended schema of file targets requires only members and gives them their kinds |
| ConfigJson.TargetAgreesExactly | Source/SharedLibraries/CommonTools/Logger.cpp:215-234 | the class allocated for a target is its own if and only if its type names it |
| ConfigJson.ConfigRoundTripExactly | Source/SharedLibraries/CommonTools/Logger.cpp:324-340 | a configuration is restored completely if and only if the type of every target names its class |
| ConfigJson.WrittenConfigPasses | Source/SharedLibraries/CommonTools/Logger.cpp:300-331 | writing a configuration never throws: it and everything in it pass their schemas |
| ConfigJson.ConfigUnderItsNames | Source/SharedLibraries/CommonTools/include/LogTargetFile.h:76-93 | the written object holds every value of the configuration, its targets and its dispatch entries under the name it is known by; the targets of an entry in their order, each once |
| ConfigJson.AcceptedConfigHas | Source/SharedLibraries/CommonTools/Logger.cpp:311-340 | a document that is read has the four members of a configuration, of their kinds |
| ConfigJson.AcceptedTargetHas | Source/SharedLibraries/CommonTools/Logger.cpp:215-234 | a target that is read has its three members and a known type, which alone chooses its class |
| ConfigJson.DefaultsAreConstructed | Source/SharedLibraries/CommonTools/include/LogTargetFile.h:61-71 | what a member keeps that a document leaves out is what the constructor gives |
| ConfigJson.ConfigFieldsInjective | Source/SharedLibraries/CommonTools/include/Logger.h:430-437 | the exposed members hold all of a configuration: equal members, equal configurations |
| Backup.FileSystem.BackupConfig | Source/SharedLibraries/CommonTools/Logger.cpp:960-970 | at most one probe more than there are files; the first unused name in the probing order; the file has that name afterwards and no other file changes |
| Backup.ProbesDiffer | Source/SharedLibraries/CommonTools/Logger.cpp:961-965 | no name is tried twice |
| Backup.UsedProbesAreFew | Source/SharedLibraries/CommonTools/Logger.cpp:963-966 | there cannot be more used names in a row than files |

## Left out

- FoundExactly: a '+' with no solid character between it and `%%procname` is not decided in general, because `(.*)` also matches '+'; directly beside `%%procname` it does no harm (FoundWithPlusBeside).
- FoundExactlyWithHours: with a placeholder other than text between `%%procname` and `%%time`, or a '+' in use, the condition is not reduced further.
- PatternRecognisesName: years from 10000 on and values with '%' are not covered, and a process name must not contain a line terminator.
- FormatTime: times before the epoch are not covered; the code converts their negative fields to `size_t`.
- Setup: the warnings it logs and what the purge worker deletes are not modelled; whether a name is accepted and a file can be opened is given.
- StampsCompareAsTimes: years from 10000 on, where the width changes, are not covered.
- ConfigRoundTripExactly: numbers are unbounded integers; the conversions of the JSON library between number kinds, and bytes that are not UTF-8, are not modelled.
- BackupConfig: the probe counter is unbounded, the code counts in an `int`.
- Iterating over a JSON object or a scalar as if it were an array (the schemas exclude it) reads as a failure in the model.
- Real files, directories, consoles, the regular expression engine of the standard library, parsing and printing of JSON text.
- Data races of the C++ memory model (the unlocked look at the buffer, `_dispatch_keys` read during `Configure`) and the limit of the binary semaphore: steps are atomic, and the logging thread may wake up at any time because of its two second timeout.
- The daily purge worker of a file target; only the pattern it uses is modelled.
- Calls back into the logger from target code that writes a record; from maintenance they are modelled.
- `Convert_system_clock_to_UTC` (its result is not used), time zones.
- `replace_all_copy`, which repeats the loop of `replace_all` on a copy; trimming, splitting and case helpers.
- `Initialize` with its fallback set-up, `Save_config` and `Load_config` beyond the serialization round trip.
- Serializer branches the configuration does not use: raw buffers, `char` arrays, `CString`, durations, maps.
