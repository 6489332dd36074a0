# luciq_flutter Android bridge and migration helper, in Dafny

This project models the decision-making core of the Android side of the
`luciq_flutter` plugin, together with the case-preserving rename helper of its
migration script, and proves properties of that model.

- **Private-view masking** (`PrivateViewManager`). A screenshot request fails
  at once when no activity is attached. Otherwise the private-view rectangles
  are fetched and a capture runs: pixel copy on API level 26 (O) and later,
  with the boundary capture as its fallback, and the boundary capture alone
  on earlier levels. The captured screenshot then waits for the rectangles,
  has them painted on it, and is reported as a success. A request is modelled
  as the trace of events it produces, for a given environment: attached
  activity, API level, each capture strategy's outcome, and how the wait for
  the rectangles ends.
- **Argument translation** (`ArgsRegistry`, `BugReportingApi`, `LuciqApi`).
  Identifier strings from Dart are translated through fixed tables. A missing
  key throws a `NullPointerException`. Lists are translated element by
  element. An adapter call is modelled as the SDK calls it makes and the
  exception that escapes it. `LuciqApi` adds its own rules:
  - how `init` branches on whether the SDK is already built;
  - the placeholder presence check;
  - feature flags with empty variants;
  - reproduction-step modes that skip null arguments;
  - the fallback between the two branding logos;
  - reading text styles and fonts out of the untyped theme map.
- **Session-replay validation** (`SessionReplayApi`). Four boolean switches,
  two closed enum translations that reject unknown values, and a capture
  interval with a 500 ms lower bound.
- **Migration helper** (`migrate.js`):
  - case-insensitive, left-to-right, non-overlapping replacement, where each
    replacement takes the case pattern of the text it replaces;
  - the path-segment filter for ignored directories;
  - directory collection with its depth bound, and the deepest-first sort;
  - the per-file and per-folder decisions;
  - filtering of enabled methods.

Modules: `Common` (nullable values, failures, SDK-call effects, Java
`intValue`), `Ascii`, `ArgsRegistry`, `BugReportingApi`, `SessionReplayApi`,
`LuciqApi`, `PrivateViewManager`, `CaseReplace`, `Paths`, `Migrate`.

Where the specification and the code disagree, the model follows the code:

- `show` with a null option list throws, although the list is declared
  nullable.
- `addHabibaUserConsents` passes its action type on untranslated.
- A request whose private views never arrive is never answered.

## Model

Source paths are relative to the repository root.

| member | source | states |
|---|---|---|
| Common.IntValue | packages/luciq_flutter/android/src/main/java/ai/luciq/flutter/modules/SessionReplayApi.java:75 | `Long.intValue()` yields a 32-bit value congruent to its input modulo 2^32, equal to it when it already fits |
| Ascii.UpperStr | migrate.js:166-170 | upper-casing keeps the length, leaves no lower-case letter, and changes no character that is not a lower-case letter |
| Ascii.LowerStr | packages/luciq_flutter/android/src/main/java/ai/luciq/flutter/modules/LuciqApi.java:678 | lower-casing keeps the length, leaves no upper-case letter, and changes no character that is not an upper-case letter |
| Ascii.FoldsAgree | migrate.js:165 | two characters are equal ignoring case by upper-casing exactly when they are by lower-casing |
| Ascii.UpperStrFixpoints | migrate.js:166 | a text equals its upper-case form exactly when it has no lower-case letter, which is what the all-uppercase test asks; likewise for lower-casing |
| Ascii.CaseIdempotent | migrate.js:166-172 | mapping the case twice is mapping it once |
| Ascii.CaseForgets | migrate.js:165-172 | lower-casing after upper-casing is plain lower-casing, and the other way round |
| Ascii.CaseAppend | migrate.js:170 | case mapping works piecewise on a concatenation |
| ArgsRegistry.Get | packages/luciq_flutter/android/src/main/java/ai/luciq/flutter/util/ArgsRegistry.java:28-33 | the lookup succeeds exactly for keys in the table, with the stored value; a missing key is a NullPointerException, never a null |
| ArgsRegistry.TranslateAll | packages/luciq_flutter/android/src/main/java/ai/luciq/flutter/modules/BugReportingApi.java:58-67 | a key list translates exactly when every key is registered, into a list of the same length whose i-th entry is the i-th key's value; otherwise a NullPointerException |
| ArgsRegistry.SdkLogLevelsComplete | packages/luciq_flutter/android/src/main/java/ai/luciq/flutter/util/ArgsRegistry.java:36-41 | the log-level table has exactly the four `LogLevel.*` keys and reaches every SDK level |
| ArgsRegistry.InvocationEventsComplete | packages/luciq_flutter/android/src/main/java/ai/luciq/flutter/util/ArgsRegistry.java:43-49 | five invocation-event keys, reaching every SDK invocation event |
| ArgsRegistry.ReproModesTable | packages/luciq_flutter/android/src/main/java/ai/luciq/flutter/util/ArgsRegistry.java:123-127 | the three repro-step keys and the mode each selects; every mode is selectable |
| ArgsRegistry.AutoMaskingTable | packages/luciq_flutter/android/src/main/java/ai/luciq/flutter/util/ArgsRegistry.java:63-68 | the four auto-masking keys and the masking type each selects; every type is selectable |
| ArgsRegistry.PlaceholderBlocksDisjoint | packages/luciq_flutter/android/src/main/java/ai/luciq/flutter/util/ArgsRegistry.java:165-231 | no placeholder identifier is registered twice across the table's blocks |
| ArgsRegistry.BlockOf | packages/luciq_flutter/android/src/main/java/ai/luciq/flutter/util/ArgsRegistry.java:165-231 | every SDK placeholder key belongs to one of the table's five blocks |
| ArgsRegistry.PlaceholderValues | packages/luciq_flutter/android/src/main/java/ai/luciq/flutter/util/ArgsRegistry.java:165-231 | the keys the table reaches are those of its five blocks together |
| ArgsRegistry.PlaceholdersComplete | packages/luciq_flutter/android/src/main/java/ai/luciq/flutter/util/ArgsRegistry.java:165-231 | every SDK custom-text placeholder key is reached by some identifier |
| BugReportingApi.SetEnabled | packages/luciq_flutter/android/src/main/java/ai/luciq/flutter/modules/BugReportingApi.java:38-44 | one `setState` call, ENABLED exactly when the flag is true |
| BugReportingApi.ShowReport | packages/luciq_flutter/android/src/main/java/ai/luciq/flutter/modules/BugReportingApi.java:48-55 | `show` succeeds exactly when the option list is non-null and the report type and every option are registered; then one call with the translated type and options in order; otherwise a NullPointerException and no call |
| BugReportingApi.SetInvocationEventsOf | packages/luciq_flutter/android/src/main/java/ai/luciq/flutter/modules/BugReportingApi.java:58-67 | one call with the events translated in order exactly when all are registered; no call otherwise |
| BugReportingApi.SetReportTypesOf | packages/luciq_flutter/android/src/main/java/ai/luciq/flutter/modules/BugReportingApi.java:71-80 | one call with the report types translated in order exactly when all are registered; no call otherwise |
| BugReportingApi.SetInvocationOptionsOf | packages/luciq_flutter/android/src/main/java/ai/luciq/flutter/modules/BugReportingApi.java:90-96 | one call with the options translated in order exactly when all are registered; no call otherwise |
| BugReportingApi.SetFloatingButtonEdgeOf | packages/luciq_flutter/android/src/main/java/ai/luciq/flutter/modules/BugReportingApi.java:99-103 | succeeds exactly for a registered edge: the edge is set first, then the offset narrowed to a Java `int`; nothing is called for an unknown edge |
| BugReportingApi.SetCommentMinimumCharacterCountOf | packages/luciq_flutter/android/src/main/java/ai/luciq/flutter/modules/BugReportingApi.java:179-188 | a null type list becomes an empty array; otherwise success exactly when all types are registered, translated in order; the limit is narrowed to an `int` |
| BugReportingApi.AddHabibaUserConsents | packages/luciq_flutter/android/src/main/java/ai/luciq/flutter/modules/BugReportingApi.java:191-193 | every argument, the action type included, reaches the SDK unchanged and unvalidated |
| BugReportingApi.TranslateAppend | packages/luciq_flutter/android/src/main/java/ai/luciq/flutter/modules/BugReportingApi.java:58-67 | translating a concatenation succeeds exactly when both parts do, and gives the two translations concatenated |
| SessionReplayApi.SetSwitch | packages/luciq_flutter/android/src/main/java/ai/luciq/flutter/modules/SessionReplayApi.java:17-35 | each boolean setter makes one SDK call, on its own switch, with the flag unchanged |
| SessionReplayApi.SwitchesInjective | packages/luciq_flutter/android/src/main/java/ai/luciq/flutter/modules/SessionReplayApi.java:17-35 | two setter calls have the same effect exactly when they name the same switch and flag |
| SessionReplayApi.SetScreenshotCapturingMode | packages/luciq_flutter/android/src/main/java/ai/luciq/flutter/modules/SessionReplayApi.java:43-64 | an unknown mode throws INVALID_CAPTURING_MODE naming it, without an SDK call; each known mode gives its SDK mode |
| SessionReplayApi.CapturingModeBijection | packages/luciq_flutter/android/src/main/java/ai/luciq/flutter/modules/SessionReplayApi.java:43-64 | the capturing-mode translation is a bijection between the three known values and the three SDK modes |
| SessionReplayApi.SetScreenshotQualityMode | packages/luciq_flutter/android/src/main/java/ai/luciq/flutter/modules/SessionReplayApi.java:79-100 | an unknown quality throws INVALID_QUALITY_MODE naming it, without an SDK call; each known one gives its SDK quality |
| SessionReplayApi.QualityModeBijection | packages/luciq_flutter/android/src/main/java/ai/luciq/flutter/modules/SessionReplayApi.java:79-100 | the quality translation is a bijection between the three known values and the three SDK qualities |
| SessionReplayApi.SetCaptureIntervalAsWritten | packages/luciq_flutter/android/src/main/java/ai/luciq/flutter/modules/SessionReplayApi.java:67-76 | below 500 ms throws INVALID_CAPTURE_INTERVAL without an SDK call; otherwise the value reaches the SDK wrapped to 32 bits, unchanged when it fits |
| SessionReplayApi.IntervalGuardBypassed | packages/luciq_flutter/android/src/main/java/ai/luciq/flutter/modules/SessionReplayApi.java:68-75 | 2^32 ms passes the guard and reaches the SDK as 0; 2^31 ms reaches it as a negative interval |
| SessionReplayApi.SetCaptureInterval | packages/luciq_flutter/android/src/main/java/ai/luciq/flutter/modules/SessionReplayApi.java:67-76 | rejects exactly the intervals outside 500 ms up to the largest `int`, and passes every other one to the SDK unchanged |
| SessionReplayApi.CaptureIntervalSound | packages/luciq_flutter/android/src/main/java/ai/luciq/flutter/modules/SessionReplayApi.java:67-76 | whatever the corrected setter passes on is the caller's value and at least 500; every such value passes, and there it agrees with the code as written |
| LuciqApi.Init | packages/luciq_flutter/android/src/main/java/ai/luciq/flutter/modules/LuciqApi.java:121-157 | the platform is reported first; `init` throws exactly when the level or an event is unregistered, after that one call; otherwise the built or not-built branch follows with the translated events and level |
| LuciqApi.InitBranch | packages/luciq_flutter/android/src/main/java/ai/luciq/flutter/modules/LuciqApi.java:134-156 | an already built SDK only gets the log level and the events; otherwise the builder with the token, level and events comes first, and installing the screenshot provider, then disabling native user-step capture, come last |
| LuciqApi.InitBranchBuildsOnce | packages/luciq_flutter/android/src/main/java/ai/luciq/flutter/modules/LuciqApi.java:134-156 | the branch builds the SDK once when it is not built and never otherwise, and sets a given app variant only while building |
| LuciqApi.InitBuildsOnce | packages/luciq_flutter/android/src/main/java/ai/luciq/flutter/modules/LuciqApi.java:121-157 | a successful `init` builds the SDK exactly once when not yet built and never otherwise; likewise for the app variant |
| LuciqApi.InitAgreesWithBugReporting | packages/luciq_flutter/android/src/main/java/ai/luciq/flutter/modules/LuciqApi.java:134-136 | on an already-built SDK, `init` passes the same events as `BugReporting.setInvocationEvents` would for the same identifiers |
| LuciqApi.EnableAutoMasking | packages/luciq_flutter/android/src/main/java/ai/luciq/flutter/modules/LuciqApi.java:160-168 | one call with the masking types translated in order exactly when all are registered; no call otherwise |
| LuciqApi.EnableAutoMaskingExamples | packages/luciq_flutter/android/src/main/java/ai/luciq/flutter/modules/LuciqApi.java:160-168 | masking labels, text inputs and media, masking nothing, and an empty list each reach the SDK as exactly those types |
| LuciqApi.SetValueForStringWithKey | packages/luciq_flutter/android/src/main/java/ai/luciq/flutter/modules/LuciqApi.java:268-276 | a registered key updates that placeholder in the kept set and sends the whole set; any other key changes and sends nothing |
| LuciqApi.PlaceholderSetIdempotent | packages/luciq_flutter/android/src/main/java/ai/luciq/flutter/modules/LuciqApi.java:268-276 | setting a placeholder twice to the same text is setting it once |
| LuciqApi.PlaceholderSetsCommute | packages/luciq_flutter/android/src/main/java/ai/luciq/flutter/modules/LuciqApi.java:268-276 | settings of keys resolving to different placeholders commute |
| LuciqApi.AddFeatureFlagsOf | packages/luciq_flutter/android/src/main/java/ai/luciq/flutter/modules/LuciqApi.java:310-320 | nothing escapes; no SDK call exactly when some variant is null; otherwise one flag per entry with its name, and no flag has an empty variant |
| LuciqApi.FeatureFlagsRoundTrip | packages/luciq_flutter/android/src/main/java/ai/luciq/flutter/modules/LuciqApi.java:313-315 | each flag sent gives back its entry: the name, and the variant with null standing for the empty string |
| LuciqApi.SetReproStepsConfig | packages/luciq_flutter/android/src/main/java/ai/luciq/flutter/modules/LuciqApi.java:390-415 | nothing escapes; the configuration is applied once exactly when every non-null mode is registered; it holds a mode exactly for the non-null arguments, each the registered one |
| LuciqApi.WithIssueMode | packages/luciq_flutter/android/src/main/java/ai/luciq/flutter/modules/LuciqApi.java:394-407 | fails exactly after an earlier failure or on an unregistered mode; otherwise adds exactly the argument's issue type, with its registered mode, and keeps every other entry |
| LuciqApi.SetCustomBrandingImageOf | packages/luciq_flutter/android/src/main/java/ai/luciq/flutter/modules/LuciqApi.java:449-472 | nothing escapes; the SDK is called exactly when the method is found and some logo loaded; a missing logo takes the other's image |
| LuciqApi.BrandingSymmetric | packages/luciq_flutter/android/src/main/java/ai/luciq/flutter/modules/LuciqApi.java:454-459 | swapping the two assets swaps the logos sent; a single available logo is used for both |
| LuciqApi.GetTextStyle | packages/luciq_flutter/android/src/main/java/ai/luciq/flutter/modules/LuciqApi.java:674-694 | a style other than NORMAL results exactly when the value is a string whose lower-case form is a style name, and it is that style |
| LuciqApi.TextStyleIgnoresCase | packages/luciq_flutter/android/src/main/java/ai/luciq/flutter/modules/LuciqApi.java:678 | spellings equal after lower-casing give the same style; each style is reached by its own name in lower or upper case |
| LuciqApi.FontName | packages/luciq_flutter/android/src/main/java/ai/luciq/flutter/modules/LuciqApi.java:725-736 | no name exactly when neither key holds a non-null value; the asset key's string wins over the file key's; a non-string value under the chosen key fails the cast |
| LuciqApi.GetTypeface | packages/luciq_flutter/android/src/main/java/ai/luciq/flutter/modules/LuciqApi.java:725-736 | DEFAULT exactly when neither key holds a non-null value; otherwise the asset key's string, else the file key's; a non-string value there is a ClassCastException |
| LuciqApi.SetFontIfPresent | packages/luciq_flutter/android/src/main/java/ai/luciq/flutter/modules/LuciqApi.java:705-723 | nothing is set when neither key is present; when one is, a failed cast escapes, and otherwise the typeface the lookup gives is set exactly when the font type names a slot, on that slot |
| LuciqApi.FontKeyPrecedence | packages/luciq_flutter/android/src/main/java/ai/luciq/flutter/modules/LuciqApi.java:728-735 | with both keys set the asset font wins; with a null asset value the file font is used; a present but null key gives DEFAULT |
| PrivateViewManager.ScaledRects | packages/luciq_flutter/android/src/main/java/ai/luciq/flutter/modules/PrivateViewManager.java:136-141 | one rectangle per complete group of four numbers |
| PrivateViewManager.ScaledRectsAt | packages/luciq_flutter/android/src/main/java/ai/luciq/flutter/modules/PrivateViewManager.java:136-141 | rectangle k is encoded by the numbers at positions 4k to 4k+3 |
| PrivateViewManager.ScaledRectsAtValues | packages/luciq_flutter/android/src/main/java/ai/luciq/flutter/modules/PrivateViewManager.java:137-140 | rectangle k is (left, top, right, bottom) = the four numbers at 4k, each times the pixel ratio |
| PrivateViewManager.DrawLogAppend | packages/luciq_flutter/android/src/main/java/ai/luciq/flutter/modules/PrivateViewManager.java:136-141 | painting one more rectangle appends one paint event for it, on the same bitmap, after those already painted |
| PrivateViewManager.MaskPrivateViews | packages/luciq_flutter/android/src/main/java/ai/luciq/flutter/modules/PrivateViewManager.java:127-146 | a null or empty view list paints nothing |
| PrivateViewManager.MaskLogShape | packages/luciq_flutter/android/src/main/java/ai/luciq/flutter/modules/PrivateViewManager.java:127-146 | masking only paints on the result's own screenshot, or aborts |
| PrivateViewManager.MaskPrivateViewsLoop | packages/luciq_flutter/android/src/main/java/ai/luciq/flutter/modules/PrivateViewManager.java:127-146 | the index loop stepping by four, stopped by the first out-of-range read, paints exactly the rectangles of the group-wise description |
| PrivateViewManager.MaskCountsGroups | packages/luciq_flutter/android/src/main/java/ai/luciq/flutter/modules/PrivateViewManager.java:136-144 | exactly |v|/4 rectangles are painted, and the loop aborts exactly when a partial group is left |
| PrivateViewManager.Mask | packages/luciq_flutter/android/src/main/java/ai/luciq/flutter/modules/PrivateViewManager.java:53-107 | with no activity the only event is one failure with the exception message; otherwise the fetch of the views is posted first |
| PrivateViewManager.ProcessScreenshot | packages/luciq_flutter/android/src/main/java/ai/luciq/flutter/modules/PrivateViewManager.java:110-124 | nothing is reported exactly while the views never arrive; after a release the trace opens with the release and closes with success on the captured bitmap; an interrupted wait is one failure |
| PrivateViewManager.OnOutcome | packages/luciq_flutter/android/src/main/java/ai/luciq/flutter/modules/PrivateViewManager.java:57-96 | a strategy error is handed to its error path unchanged; a captured result ends in success on its bitmap once the views arrive, and in one interruption failure otherwise |
| PrivateViewManager.BoundaryCapture | packages/luciq_flutter/android/src/main/java/ai/luciq/flutter/modules/PrivateViewManager.java:57-69 | the boundary capture is started first; its error gives exactly one failure with the exception message and nothing more |
| PrivateViewManager.Capture | packages/luciq_flutter/android/src/main/java/ai/luciq/flutter/modules/PrivateViewManager.java:83-99 | the first strategy started is pixel copy exactly on API level O and later, the boundary capture otherwise |
| PrivateViewManager.Delivered | packages/luciq_flutter/android/src/main/java/ai/luciq/flutter/modules/PrivateViewManager.java:83-99 | no screenshot reaches processing exactly when there is no activity or every strategy tried errored; one that does is pixel copy's when it was tried and captured, else the boundary capture's |
| PrivateViewManager.ProcessShape | packages/luciq_flutter/android/src/main/java/ai/luciq/flutter/modules/PrivateViewManager.java:110-124 | processing starts no capture; it reports success with the screenshot's bitmap after a release, failure after an interruption, nothing while waiting |
| PrivateViewManager.BoundaryShape | packages/luciq_flutter/android/src/main/java/ai/luciq/flutter/modules/PrivateViewManager.java:57-69 | the boundary capture starts one capture; its error is reported as one failure with the exception message |
| PrivateViewManager.MaskView | packages/luciq_flutter/android/src/main/java/ai/luciq/flutter/modules/PrivateViewManager.java:72-80 | the fetch posted before the capture is invisible to any view that ignores it |
| PrivateViewManager.PixelCopyView | packages/luciq_flutter/android/src/main/java/ai/luciq/flutter/modules/PrivateViewManager.java:83-96 | on API level O and later the request is pixel copy's attempt followed by what its outcome leads to |
| PrivateViewManager.CaptureOrder | packages/luciq_flutter/android/src/main/java/ai/luciq/flutter/modules/PrivateViewManager.java:83-99 | pixel copy first on O and later, then the boundary capture exactly once if pixel copy errored; boundary alone below O; nothing without an activity |
| PrivateViewManager.Delivery | packages/luciq_flutter/android/src/main/java/ai/luciq/flutter/modules/PrivateViewManager.java:53-124 | the reports: one failure with the exception message when nothing was captured; otherwise what processing the captured screenshot reports |
| PrivateViewManager.ExactlyOnce | packages/luciq_flutter/android/src/main/java/ai/luciq/flutter/modules/PrivateViewManager.java:53-124 | each request is answered exactly once, unless it waits forever for the views |
| PrivateViewManager.NoActivityFails | packages/luciq_flutter/android/src/main/java/ai/luciq/flutter/modules/PrivateViewManager.java:53-106 | without an activity: one failure with the exception message, no capture, no fetch |
| PrivateViewManager.BoundaryErrorIsFinal | packages/luciq_flutter/android/src/main/java/ai/luciq/flutter/modules/PrivateViewManager.java:66-68 | a boundary error that is reached ends the request with one failure, and the boundary capture was the last started |
| PrivateViewManager.DeliveredTrace | packages/luciq_flutter/android/src/main/java/ai/luciq/flutter/modules/PrivateViewManager.java:53-124 | a captured request is the fetch and the captures started, then the processing of the captured screenshot |
| PrivateViewManager.SuccessReported | packages/luciq_flutter/android/src/main/java/ai/luciq/flutter/modules/PrivateViewManager.java:113-116 | a reported success carries the captured bitmap and happens only after the views arrived |
| PrivateViewManager.SuccessAfterRelease | packages/luciq_flutter/android/src/main/java/ai/luciq/flutter/modules/PrivateViewManager.java:113-116 | success is the last event, right after the wait ended and the views received were painted |
| PrivateViewManager.InterruptedFails | packages/luciq_flutter/android/src/main/java/ai/luciq/flutter/modules/PrivateViewManager.java:120-122 | an interrupted wait reports one failure and never a success |
| PrivateViewManager.PartialGroupStillSucceeds | packages/luciq_flutter/android/src/main/java/ai/luciq/flutter/modules/PrivateViewManager.java:128-145 | a trailing partial group still leaves the complete groups painted and the success reported |
| CaseReplace.EmptyScan | migrate.js:165 | an empty pattern matches once before each character and once at the end: empty matches and copied characters alternate, in input order |
| CaseReplace.Scan | migrate.js:165 | every match is as long as the search string; a non-empty pattern gives at most one piece per character; text shorter than the pattern is copied through whole |
| CaseReplace.ScanCoversInput | migrate.js:165 | the matches and the kept characters cover the input exactly, in order |
| CaseReplace.ScanHitsMatch | migrate.js:165 | every match equals the search string ignoring case |
| CaseReplace.EmptyScanHits | migrate.js:165 | every match of an empty pattern is the empty string |
| CaseReplace.ScanKeepsOnlyNonMatches | migrate.js:165 | a character is kept only at a position where no occurrence starts, so matching is leftmost and non-overlapping |
| CaseReplace.AdjustCase | migrate.js:166-172 | the replacement is only re-cased: its length and its letters up to case are kept |
| CaseReplace.AdjustCaseOnlyRecases | migrate.js:166-172 | an all-uppercase match gives the replacement upper-cased, a capitalised match upper-cases its first character only, any other match lower-cases it |
| CaseReplace.AdjustCaseAgrees | migrate.js:165-173 | the callback as written throws exactly for an empty replacement of a capitalised, not all-uppercase match, and otherwise agrees with the corrected rule |
| CaseReplace.EmptyReplacementThrows | migrate.js:169-170 | replacing "Instabug" by the empty string throws as written; the corrected rule deletes it |
| CaseReplace.AdjustCaseAsWritten | migrate.js:165-173 | the callback as written fails only when the replacement is empty, and otherwise returns text as long as the replacement |
| CaseReplace.Render | migrate.js:165-173 | pieces without a match render as exactly the text they cover |
| CaseReplace.ReplaceAll | migrate.js:165 | text shorter than the search string is left unchanged |
| CaseReplace.CasePreservingReplace | migrate.js:161-177 | text shorter than every search string is left unchanged; pairs whose replacements are as long as their search strings keep the length |
| CaseReplace.ReplaceExamples | migrate.js:166-172 | "Instabug", "INSTABUG" and "instabug" become "Luciq", "LUCIQ" and "luciq" |
| CaseReplace.ReplaceComposes | migrate.js:161-177 | pairs apply in list order, each to the previous output; the empty list is the identity |
| CaseReplace.NoOccurrenceUnchanged | migrate.js:165 | text without an occurrence of the search string is unchanged |
| CaseReplace.EqualLengthPreservesLength | migrate.js:165-173 | a replacement as long as its search string keeps the text's length |
| Paths.Split | migrate.js:158 | at least one segment, none containing the separator |
| Paths.JoinSplit | migrate.js:158 | joining the segments of a path gives the path back |
| Paths.SplitJoin | migrate.js:158 | splitting a join of separator-free segments gives the segments back |
| Paths.SplitAppend | migrate.js:380-381 | splitting at a separator concatenates the segment lists |
| Paths.SplitSingle | migrate.js:158 | a path is a single segment exactly when it holds no separator, and that segment is the path itself |
| Paths.PathJoin | migrate.js:234 | the segments of the joined path are the directory's followed by the entry's |
| Paths.Depth | migrate.js:380-381 | every path has depth at least one |
| Paths.Basename | migrate.js:230 | the base name holds no separator, and a separator-free path is its own base name |
| Paths.Dirname | migrate.js:229 | a separator-free path has the directory "." |
| Paths.PathJoinParts | migrate.js:229-234 | joining an entry name under a directory adds one segment; dirname and basename take the join apart |
| Paths.DirnameBasename | migrate.js:264-269 | a multi-segment path is its dirname joined with its basename |
| Migrate.IsIgnored | migrate.js:157-159 | a path is ignored exactly when one of its segments is a listed directory |
| Migrate.SeparatorEntryIgnoresNothing | migrate.js:158 | a listed entry containing a separator, such as "doc/api", ignores nothing |
| Migrate.IgnoredBelow | migrate.js:157-159 | everything below an ignored directory is ignored |
| Migrate.Collect | migrate.js:345-366 | every collected directory lies deeper than the starting path; an ignored start, or one past the depth bound, collects nothing |
| Migrate.CollectEntries | migrate.js:354-360 | every collected directory lies deeper than the directory read; a listing of files only collects nothing |
| Migrate.CollectBounded | migrate.js:345-366 | every collected directory sits directly in one that was read: not ignored and at most 20 levels down, so at most 21 levels down |
| Migrate.CollectEntriesBounded | migrate.js:354-360 | the same bound for the entries of one directory that is read |
| Migrate.CollectFindsChildren | migrate.js:354-358 | every directory directly inside a directory that is read is collected |
| Migrate.CollectStopsBelowBound | migrate.js:346-349 | nothing is collected beyond depth 20 |
| Migrate.Insert | migrate.js:379-383 | inserting keeps every path exactly once more |
| Migrate.SortDeepestFirst | migrate.js:379-383 | the sort is a permutation |
| Migrate.InsertKeepsOrder | migrate.js:379-383 | inserting into a deepest-first list keeps it deepest-first |
| Migrate.InsertAtDepth | migrate.js:379-383 | an inserted path goes before every path of its own depth |
| Migrate.SortSound | migrate.js:379-383 | the result is deepest first, a permutation, and keeps collection order among paths of equal depth |
| Migrate.ProcessFile | migrate.js:199-252 | ignored, oversized or dry-run files are left alone |
| Migrate.ProcessFileSound | migrate.js:218-247 | every change is called for: a write is of the replaced content and only when it differs; a rename only when the name changes and the target is free, to the new name in the same directory; a backup only when backups are on |
| Migrate.ProcessFileComplete | migrate.js:218-247 | for a processed file, a write happens exactly when the content changes and a rename exactly when the name changes and the target is free |
| Migrate.ProcessFileBackup | migrate.js:218-225 | with backups on, a processed file is backed up exactly when its content changes, right before the write |
| Migrate.DefaultSettingsWrite | migrate.js:129-135 | under the shipped settings a changed, unignored file of at most 10 MiB is written first, without a backup |
| Migrate.RenameFolder | migrate.js:258-303 | a folder moves exactly when it is not ignored, its name changes, the target is free, it is readable and this is no dry run |
| Migrate.RenamedPathDiffers | migrate.js:268-269 | a changed folder name gives a different path |
| Migrate.RenameKeepsParent | migrate.js:264-269 | a renamed folder keeps its parent and its depth |
| Migrate.EnabledMethods | migrate.js:449 | only enabled methods are kept, no more than were configured |
| Migrate.EnabledMethodsFilter | migrate.js:449 | a method is kept exactly when configured and enabled, and the filter keeps configuration order |
| Migrate.ExecuteMethod | migrate.js:418-424 | a disabled method changes nothing |
| Migrate.ExecuteMethodAppend | migrate.js:436-438 | running a method over a file list is running it on each part in turn |

## Left out

- Threads, the latch's timing and the delayed post are reduced to the order of events. A wait that is never released is the environment's `NeverReleased`.
- The synchronous-throw catch in `mask` (PrivateViewManager.java:101-103) is left out. The capture strategies' code is not part of this model, and a strategy appears only as its result or error.
- Pixels, `Canvas`/`Paint` and the `floatValue()` narrowing are left out. Rectangles are reals and painting is a log entry. A null element in the view list is not modelled.
- PrivateViewManager.MaskPrivateViews: its contract states only the empty cases. The group-wise content is stated by MaskCountsGroups, ScaledRectsAt and PartialGroupStillSucceeds.
- Reflection is left out. `setCurrentPlatform` is an event, `shouldDisableNativeUserStepsCapturing` is an event, and the lookup of `setCustomBrandingImage` is a boolean.
- Asset loading and `Typeface.createFromAsset`/`create` are left out. A font is its name, and a logo that cannot be loaded is a missing one.
- The plugin lifecycle, the iOS headers, and the one-line delegations of `LuciqApi` and `LuciqLogApi` are left out.
- `HashMap` iteration order in `addFeatureFlags` is a sequence given by the caller.
- Test expectations that contradict the code are not modelled: translated consent action types, a missing `addUserConsents`, validation exceptions, and a missing `setNetworkAutoMaskingEnabled`.
- migrate.js I/O is left out: the filesystem, `execSync`, the git check, logging, timing and CLI arguments. Sizes, contents, target existence and readability are parameters, and a directory listing is a tree.
- The search strings of migrate.js are regular expressions. They are modelled as literal text, so special characters such as `.` are not modelled.
- Case mapping is ASCII only.
- LuciqApi.GetTextStyle: assumes a default locale that is neither Turkish nor Azerbaijani. Under those locales Java's `toLowerCase()` maps `'I'` to a dotless `'ı'`, so "ITALIC" or "BOLD_ITALIC" gives NORMAL in the source where the model gives the style. LuciqApi.TextStyleIgnoresCase makes the same assumption.
- CaseReplace.ReplaceAll: uses the corrected AdjustCase. As written, an empty replacement for a capitalised, not all-uppercase match throws a TypeError (migrate.js:170); the model deletes the match instead. Only AdjustCaseAsWritten and AdjustCaseAgrees model the throwing callback.
- CaseReplace.CasePreservingReplace: inherits the corrected rule from ReplaceAll, so it never throws.
- Migrate.ProcessFile: inherits the corrected rule. As written, the TypeError is caught at migrate.js:249-251, so a file with search "instabug", replacement "" and content "Instabug" is left unchanged, where the model writes the empty content.
- Migrate.RenameFolder: inherits the corrected rule. As written, the TypeError is caught at migrate.js:298-300 and the folder keeps its name, where the model renames it.
- PrivateViewManager.ExactlyOnce: holds per request only. All requests share one single-thread executor (PrivateViewManager.java:29-33, 111), so a request whose views never arrive blocks the processing of every later request. That starvation across requests is not modelled.
- The configuration table of migrate.js (whose entry at line 103 has an unbalanced quote) is not modelled. Its methods are parameters.
- `walkAndRename` and its `path.extname` selection are left out. `ExecuteMethod` takes the selected files.
- `path.join` normalisation is left out. A join is `dir + "/" + name`, with entry names free of separators.
- The counting of renamed and skipped folders in `processDirectories` is left out.
- Migrate.ExecuteMethod: states only that a disabled method changes nothing, and models only the file phase of an enabled method, whose effect is stated through ProcessFile, ProcessFileSound and ExecuteMethodAppend. The folder phase that follows it (`processDirectories`, migrate.js:441 and 339-412: collect, sort deepest first, then `renameFolderIfNeeded` on each path that `existsSync` still finds) is modelled only piecewise, by Collect, SortDeepestFirst and RenameFolder; their composition and the `existsSync` re-check are not modelled.
- Migrate.EnabledMethods: bounds the result and states that it holds only enabled methods. Membership and order are stated by EnabledMethodsFilter.

## Findings

| source | as written | input that shows it | evidently intended | confidence | as-written member | corrected member |
|---|---|---|---|---|---|---|
| packages/luciq_flutter/android/src/main/java/ai/luciq/flutter/modules/SessionReplayApi.java:68-75 | the 500 ms guard is checked on the `Long`, then `intValue()` wraps it to 32 bits | intervalMs = 4294967296 reaches the SDK as 0 | intervals the SDK's `int` cannot hold are rejected like those below 500 ms | medium, not executed | SessionReplayApi.SetCaptureIntervalAsWritten, SessionReplayApi.IntervalGuardBypassed | SessionReplayApi.SetCaptureInterval, SessionReplayApi.CaptureIntervalSound |
| migrate.js:169-170 | a capitalised match takes `replacement[0].toUpperCase()`, which throws a TypeError for an empty replacement | search "instabug", replacement "", text "Instabug" | the match is deleted | medium, not executed | CaseReplace.AdjustCaseAsWritten, CaseReplace.EmptyReplacementThrows | CaseReplace.AdjustCase |
