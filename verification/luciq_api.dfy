/** The main host API. Most of its entry points are one-line delegations; the
    ones modelled here carry decisions of their own: how `init` branches on
    whether the SDK is already built, how key lists are translated, when a
    placeholder is stored, how feature flags and reproduction-step modes are
    assembled, how the branding logos fall back on each other, and how theme
    text styles and fonts are read out of an untyped map. */
module LuciqApi {
  import opened Common
  import opened Ascii
  import opened ArgsRegistry
  import BugReportingApi

  /** A decoded image, compared by identity. */
  datatype Bitmap = Bitmap(id: nat)

  /** The issue kinds a reproduction-steps configuration can set a mode for. */
  datatype IssueType = BugIssue | AllCrashes | SessionReplayIssue

  /** A feature flag as the SDK receives it; `None` is a null variant. */
  datatype FeatureFlag = FeatureFlag(name: string, variant: Option<string>)

  /** The calls this API makes on the SDK (and on the initializer's builder). */
  datatype LuciqCall =
    | SetCurrentPlatform
    | SetSdkDebugLogsLevel(level: LogLevel)
    | SetInvocationEvents(events: seq<InvocationEvent>)
    | NewBuilder(token: string, level: LogLevel, events: seq<InvocationEvent>)
    | BuilderSetAppVariant(variant: string)
    | BuilderBuild
    | SetScreenshotProvider
    | DisableNativeUserStepsCapturing
    | SetAutoMaskScreenshotsTypes(types: seq<MaskingType>)
    | SetCustomTextPlaceHolders(placeholders: map<PlaceholderKey, string>)
    | AddFeatureFlags(flags: seq<FeatureFlag>)
    | SetReproConfigurations(modes: map<IssueType, ReproMode>)
    | SetCustomBrandingImage(light: Bitmap, dark: Bitmap)

  // ---------------------------------------------------------------- init

  /** The calls `init` makes once its arguments are resolved: when the SDK is
      already built it only updates the log level and the invocation events;
      otherwise it builds the SDK once (setting the app variant only when one
      is given) and installs the screenshot provider. */
  function InitBranch(token: string, events: seq<InvocationEvent>, level: LogLevel,
                      appVariant: Option<string>, built: bool): (calls: seq<LuciqCall>)
    ensures built ==> calls == [SetSdkDebugLogsLevel(level), SetInvocationEvents(events)]
    ensures !built ==>
              |calls| >= 4 && calls[0] == NewBuilder(token, level, events)
              && calls[|calls| - 2] == SetScreenshotProvider
              && calls[|calls| - 1] == DisableNativeUserStepsCapturing
  {
    if built then
      [SetSdkDebugLogsLevel(level), SetInvocationEvents(events)]
    else if appVariant.Some? then
      [NewBuilder(token, level, events), BuilderSetAppVariant(appVariant.value),
       BuilderBuild, SetScreenshotProvider, DisableNativeUserStepsCapturing]
    else
      [NewBuilder(token, level, events), BuilderBuild, SetScreenshotProvider, DisableNativeUserStepsCapturing]
  }

  /** `init`: the current platform is reported first, then the invocation
      events and the log level are resolved; an unknown identifier in either
      throws before the SDK is touched any further. `built` is what
      `Luciq.isBuilt()` answers. */
  function Init(token: string, invocationEvents: seq<string>, debugLogsLevel: string,
                appVariant: Option<string>, built: bool): (e: Effect<LuciqCall>)
    ensures |e.calls| >= 1 && e.calls[0] == SetCurrentPlatform
    ensures e.thrown.Some? <==>
              debugLogsLevel !in SdkLogLevels
              || exists i :: 0 <= i < |invocationEvents| && invocationEvents[i] !in InvocationEvents
    ensures e.thrown.Some? ==> e == Threw([SetCurrentPlatform], NullPointer)
    ensures e.thrown == None ==>
              var events := TranslateAll(InvocationEvents, invocationEvents).value;
              e.calls == [SetCurrentPlatform] + InitBranch(token, events, SdkLogLevels[debugLogsLevel], appVariant, built)
  {
    match TranslateAll(InvocationEvents, invocationEvents)
    case Err(f) => Threw([SetCurrentPlatform], f)
    case Ok(events) =>
      match Get(SdkLogLevels, debugLogsLevel)
      case Err(f) => Threw([SetCurrentPlatform], f)
      case Ok(level) => Done([SetCurrentPlatform] + InitBranch(token, events, level, appVariant, built))
  }

  /** The branch builds the SDK exactly once when it is not yet built and
      never otherwise, and sets the app variant only when one is given and
      the SDK is being built. */
  lemma {:induction false} InitBranchBuildsOnce(token: string, events: seq<InvocationEvent>, level: LogLevel,
                                                appVariant: Option<string>, built: bool)
    ensures multiset(InitBranch(token, events, level, appVariant, built))[BuilderBuild] == (if built then 0 else 1)
    ensures appVariant.Some? ==>
              multiset(InitBranch(token, events, level, appVariant, built))[BuilderSetAppVariant(appVariant.value)]
              == (if built then 0 else 1)
  {
  }

  /** A successful `init` builds the SDK exactly once when it is not yet built
      and never otherwise, and sets the app variant at most once: only when
      one is given and the SDK is being built. */
  lemma {:induction false} InitBuildsOnce(token: string, invocationEvents: seq<string>, debugLogsLevel: string,
                                          appVariant: Option<string>, built: bool)
    requires Init(token, invocationEvents, debugLogsLevel, appVariant, built).thrown == None
    ensures var calls := Init(token, invocationEvents, debugLogsLevel, appVariant, built).calls;
            multiset(calls)[BuilderBuild] == (if built then 0 else 1)
            && (appVariant.Some? ==>
                  multiset(calls)[BuilderSetAppVariant(appVariant.value)] == (if built then 0 else 1))
  {
    var events := TranslateAll(InvocationEvents, invocationEvents).value;
    var level := SdkLogLevels[debugLogsLevel];
    var branch := InitBranch(token, events, level, appVariant, built);
    InitBranchBuildsOnce(token, events, level, appVariant, built);
    assert Init(token, invocationEvents, debugLogsLevel, appVariant, built).calls == [SetCurrentPlatform] + branch;
    PlatformCount(branch, BuilderBuild);
    if appVariant.Some? {
      PlatformCount(branch, BuilderSetAppVariant(appVariant.value));
    }
  }

  lemma PlatformCount(branch: seq<LuciqCall>, c: LuciqCall)
    requires c != SetCurrentPlatform
    ensures multiset([SetCurrentPlatform] + branch)[c] == multiset(branch)[c]
  {
    assert multiset([SetCurrentPlatform] + branch) == multiset{SetCurrentPlatform} + multiset(branch);
  }

  /** When the SDK is already built, `init` passes the same events to the SDK
      as `BugReporting.setInvocationEvents` would for the same identifiers. */
  lemma {:induction false} InitAgreesWithBugReporting(token: string, invocationEvents: seq<string>,
                                                      debugLogsLevel: string, appVariant: Option<string>)
    requires Init(token, invocationEvents, debugLogsLevel, appVariant, true).thrown == None
    ensures var calls := Init(token, invocationEvents, debugLogsLevel, appVariant, true).calls;
            |calls| == 3 && calls[2].SetInvocationEvents?
            && BugReportingApi.SetInvocationEventsOf(invocationEvents)
               == Done([BugReportingApi.SetInvocationEvents(calls[2].events)])
  {
  }

  // ---------------------------------------------------- enableAutoMasking

  /** `enableAutoMasking`: the masking identifiers are translated in order,
      then set in one SDK call; an unknown identifier throws first. */
  function EnableAutoMasking(autoMasking: seq<string>): (e: Effect<LuciqCall>)
    ensures e.thrown == None <==> forall i :: 0 <= i < |autoMasking| ==> autoMasking[i] in AutoMasking
    ensures e.thrown.Some? ==> e.calls == []
    ensures e.thrown == None ==>
              |e.calls| == 1 && e.calls[0].SetAutoMaskScreenshotsTypes?
              && |e.calls[0].types| == |autoMasking|
              && forall i :: 0 <= i < |autoMasking| ==> e.calls[0].types[i] == AutoMasking[autoMasking[i]]
  {
    match TranslateAll(AutoMasking, autoMasking)
    case Err(f) => Threw([], f)
    case Ok(types) => Done([SetAutoMaskScreenshotsTypes(types)])
  }

  /** Masking every kind of content, or masking nothing, is expressible and
      reaches the SDK as exactly those types. */
  lemma EnableAutoMaskingExamples()
    ensures EnableAutoMasking(["AutoMasking.labels", "AutoMasking.textInputs", "AutoMasking.media"])
            == Done([SetAutoMaskScreenshotsTypes([Labels, TextInputs, Media])])
    ensures EnableAutoMasking(["AutoMasking.none"]) == Done([SetAutoMaskScreenshotsTypes([MaskNothing])])
    ensures EnableAutoMasking([]) == Done([SetAutoMaskScreenshotsTypes([])])
  {
    AutoMaskingTable();
    var all := ["AutoMasking.labels", "AutoMasking.textInputs", "AutoMasking.media"];
    var r := TranslateAll(AutoMasking, all);
    assert r.Ok? && |r.value| == 3;
    assert r.value == [Labels, TextInputs, Media];
    var none := TranslateAll(AutoMasking, ["AutoMasking.none"]);
    assert none.Ok? && none.value == [MaskNothing];
  }

  // --------------------------------------------- setValueForStringWithKey

  /** The adapter's placeholder set, which persists across calls, together
      with what one call did. */
  datatype PlaceholderStep = PlaceholderStep(state: map<PlaceholderKey, string>, effect: Effect<LuciqCall>)

  /** `setValueForStringWithKey`: a key the registry knows updates the stored
      placeholder set and sends the whole set to the SDK; any other key (one
      that only the iOS SDK knows) changes nothing and calls nothing. */
  function SetValueForStringWithKey(state: map<PlaceholderKey, string>, value: string, key: string): (r: PlaceholderStep)
    ensures key in Placeholders ==>
              r.state == state[Placeholders[key] := value]
              && r.effect == Done([SetCustomTextPlaceHolders(r.state)])
    ensures key !in Placeholders ==> r.state == state && r.effect == Done([])
  {
    if key in Placeholders then
      var next := state[Placeholders[key] := value];
      PlaceholderStep(next, Done([SetCustomTextPlaceHolders(next)]))
    else
      PlaceholderStep(state, Done([]))
  }

  lemma UpdatesCommute<K, V>(m: map<K, V>, a: K, va: V, b: K, vb: V)
    requires a != b
    ensures m[a := va][b := vb] == m[b := vb][a := va]
  {
  }

  /** Setting a placeholder twice to the same text is the same as setting it
      once. */
  lemma {:induction false} PlaceholderSetIdempotent(state: map<PlaceholderKey, string>, value: string, key: string)
    ensures var once := SetValueForStringWithKey(state, value, key).state;
            SetValueForStringWithKey(once, value, key).state == once
  {
  }

  /** Settings of two keys that resolve to different placeholders can be made
      in either order. */
  lemma {:induction false} PlaceholderSetsCommute(state: map<PlaceholderKey, string>,
                                                  v1: string, k1: string, v2: string, k2: string)
    requires k1 in Placeholders && k2 in Placeholders && Placeholders[k1] != Placeholders[k2]
    ensures SetValueForStringWithKey(SetValueForStringWithKey(state, v1, k1).state, v2, k2).state
            == SetValueForStringWithKey(SetValueForStringWithKey(state, v2, k2).state, v1, k1).state
  {
    UpdatesCommute(state, Placeholders[k1], v1, Placeholders[k2], v2);
  }

  // -------------------------------------------------------- addFeatureFlags

  /** The SDK flag for one map entry: an empty variant becomes a null one. */
  function FlagOf(name: string, variant: string): FeatureFlag
  {
    FeatureFlag(name, if variant == "" then None else Some(variant))
  }

  /** The variant string a flag was made from. */
  function VariantText(f: FeatureFlag): string
  {
    match f.variant
    case None => ""
    case Some(v) => v
  }

  /** `addFeatureFlags`: one flag per map entry, in the map's iteration order.
      A null variant makes `isEmpty()` throw; the exception is caught, so the
      SDK is not called at all and nothing escapes. */
  function AddFeatureFlagsOf(featureFlags: seq<(string, Option<string>)>): (e: Effect<LuciqCall>)
    ensures e.thrown == None
    ensures (exists i :: 0 <= i < |featureFlags| && featureFlags[i].1.None?) <==> e.calls == []
    ensures e.calls != [] ==>
              |e.calls| == 1 && e.calls[0].AddFeatureFlags?
              && |e.calls[0].flags| == |featureFlags|
              && forall i :: 0 <= i < |featureFlags| ==>
                   e.calls[0].flags[i].name == featureFlags[i].0
                   && e.calls[0].flags[i].variant != Some("")
  {
    if exists i :: 0 <= i < |featureFlags| && featureFlags[i].1.None? then Done([])
    else Done([AddFeatureFlags(seq(|featureFlags|, i requires 0 <= i < |featureFlags| =>
                                     FlagOf(featureFlags[i].0, featureFlags[i].1.value)))])
  }

  /** The flags sent to the SDK give back the entries they were made from:
      the name unchanged, and the variant text, with a null variant standing
      for the empty string. */
  lemma {:induction false} FeatureFlagsRoundTrip(featureFlags: seq<(string, Option<string>)>, i: nat)
    requires AddFeatureFlagsOf(featureFlags).calls != []
    requires i < |featureFlags|
    ensures var f := AddFeatureFlagsOf(featureFlags).calls[0].flags[i];
            (f.name, Some(VariantText(f))) == featureFlags[i]
  {
    assert featureFlags[i].1.Some?;
  }

  // ----------------------------------------------------- setReproStepsConfig

  /** The mode identifier passed for one issue kind. */
  function ModeArg(t: IssueType, bugMode: Option<string>, crashMode: Option<string>,
                   sessionReplayMode: Option<string>): Option<string>
  {
    match t
    case BugIssue => bugMode
    case AllCrashes => crashMode
    case SessionReplayIssue => sessionReplayMode
  }

  /** A mode argument the adapter accepts: null, or a registered identifier. */
  predicate KnownOrNull(arg: Option<string>)
  {
    arg.Some? ==> arg.value in ReproModes
  }

  /** Adds the mode for `t` to the configuration when its argument is
      non-null; an unknown identifier fails. */
  function WithIssueMode(config: Result<map<IssueType, ReproMode>>, t: IssueType, arg: Option<string>): (r: Result<map<IssueType, ReproMode>>)
    ensures r.Err? <==> config.Err? || (arg.Some? && arg.value !in ReproModes)
    ensures r.Ok? ==> r.value.Keys == config.value.Keys + (if arg.Some? then {t} else {})
    ensures r.Ok? && arg.Some? ==> r.value[t] == ReproModes[arg.value]
    ensures r.Ok? ==> forall u :: u in config.value && u != t ==> r.value[u] == config.value[u]
  {
    match config
    case Err(f) => Err(f)
    case Ok(m) =>
      match arg
      case None => Ok(m)
      case Some(key) =>
        match Get(ReproModes, key)
        case Err(f) => Err(f)
        case Ok(mode) => Ok(m[t := mode])
  }

  /** `setReproStepsConfig`: a mode is set for each non-null argument, resolved
      through the registry, and the configuration is applied once. An unknown
      identifier throws inside the `try`; it is caught, so nothing is applied
      and nothing escapes. */
  function SetReproStepsConfig(bugMode: Option<string>, crashMode: Option<string>,
                               sessionReplayMode: Option<string>): (e: Effect<LuciqCall>)
    ensures e.thrown == None && |e.calls| <= 1
    ensures e.calls != [] <==> KnownOrNull(bugMode) && KnownOrNull(crashMode) && KnownOrNull(sessionReplayMode)
    ensures e.calls != [] ==>
              e.calls[0].SetReproConfigurations?
              && forall t: IssueType ::
                   (t in e.calls[0].modes <==> ModeArg(t, bugMode, crashMode, sessionReplayMode).Some?)
                   && (t in e.calls[0].modes ==>
                         e.calls[0].modes[t] == ReproModes[ModeArg(t, bugMode, crashMode, sessionReplayMode).value])
  {
    var config := WithIssueMode(WithIssueMode(WithIssueMode(Ok(map[]), BugIssue, bugMode), AllCrashes, crashMode),
                                SessionReplayIssue, sessionReplayMode);
    match config
    case Err(_) => Done([])
    case Ok(modes) => Done([SetReproConfigurations(modes)])
  }

  // -------------------------------------------------- setCustomBrandingImage

  /** `setCustomBrandingImage`, after both assets have been loaded (`None`
      when an asset cannot be read): a missing light logo takes the dark one
      and a missing dark logo takes the light one; with both missing the
      adapter throws and catches its own exception, so the SDK is not called.
      `methodFound` is whether the SDK method was found by reflection. */
  function SetCustomBrandingImageOf(light: Option<Bitmap>, dark: Option<Bitmap>, methodFound: bool): (e: Effect<LuciqCall>)
    ensures e.thrown == None
    ensures e.calls != [] <==> methodFound && (light.Some? || dark.Some?)
    ensures e.calls != [] ==>
              |e.calls| == 1 && e.calls[0].SetCustomBrandingImage?
              && e.calls[0].light == (if light.Some? then light.value else dark.value)
              && e.calls[0].dark == (if dark.Some? then dark.value else light.value)
  {
    var l := if light.None? then dark else light;
    var d := if dark.None? then l else dark;
    if l.None? then Done([])
    else if methodFound then Done([SetCustomBrandingImage(l.value, d.value)])
    else Done([])
  }

  /** The fallback treats the two variants alike: swapping the assets swaps
      the logos the SDK receives, and a single available logo is used for
      both variants. */
  lemma {:induction false} BrandingSymmetric(light: Option<Bitmap>, dark: Option<Bitmap>, methodFound: bool)
    ensures var e, s := SetCustomBrandingImageOf(light, dark, methodFound), SetCustomBrandingImageOf(dark, light, methodFound);
            (e.calls == [] <==> s.calls == [])
            && (e.calls != [] ==> s.calls == [SetCustomBrandingImage(e.calls[0].dark, e.calls[0].light)])
    ensures (light.None? || dark.None?) && SetCustomBrandingImageOf(light, dark, methodFound).calls != [] ==>
              SetCustomBrandingImageOf(light, dark, methodFound).calls[0].light
              == SetCustomBrandingImageOf(light, dark, methodFound).calls[0].dark
  {
  }

  // -------------------------------------------------------------- theming

  /** A value of the untyped theme map: a string, an explicit null, or
      anything else. */
  datatype ThemeValue = Str(s: string) | Null | OtherValue

  /** Android's `Typeface` style constants. */
  datatype TextStyle = Normal | Bold | Italic | BoldItalic

  /** The lower-case name `getTextStyle` recognises for each style. */
  function StyleName(style: TextStyle): string
  {
    match style
    case Normal => "normal"
    case Bold => "bold"
    case Italic => "italic"
    case BoldItalic => "bold_italic"
  }

  /** `getTextStyle`: the value under `key`, if it is a non-null string, is
      lower-cased and matched against the style names; anything else gives
      NORMAL. A non-string value fails the cast, which is caught, so it gives
      NORMAL too. `None` stands for a null map. */
  function GetTextStyle(themeConfig: Option<map<string, ThemeValue>>, key: string): (style: TextStyle)
    ensures style != Normal <==>
              themeConfig.Some? && key in themeConfig.value && themeConfig.value[key].Str?
              && LowerStr(themeConfig.value[key].s) in {"bold", "italic", "bold_italic"}
    ensures style != Normal ==> LowerStr(themeConfig.value[key].s) == StyleName(style)
  {
    if themeConfig.Some? && key in themeConfig.value && themeConfig.value[key] != Null then
      match themeConfig.value[key]
      case Str(s) =>
        var lower := LowerStr(s);
        if lower == "bold" then Bold
        else if lower == "italic" then Italic
        else if lower == "bold_italic" then BoldItalic
        else Normal
      case _ => Normal
    else Normal
  }

  /** Style names are read ignoring ASCII case: two spellings that agree
      after lower-casing give the same style, and every style is reached by
      its own name, in any case. */
  lemma {:induction false} TextStyleIgnoresCase(key: string, s1: string, s2: string, style: TextStyle)
    ensures LowerStr(s1) == LowerStr(s2) ==>
              GetTextStyle(Some(map[key := Str(s1)]), key) == GetTextStyle(Some(map[key := Str(s2)]), key)
    ensures GetTextStyle(Some(map[key := Str(StyleName(style))]), key) == style
    ensures GetTextStyle(Some(map[key := Str(UpperStr(StyleName(style)))]), key) == style
  {
    var name := StyleName(style);
    assert LowerStr(name) == name;
    assert LowerStr(UpperStr(name)) == name;
  }

  /** Whether `key` is present in the map with a non-null value. */
  predicate HoldsValue(themeConfig: map<string, ThemeValue>, key: string)
  {
    key in themeConfig && themeConfig[key] != Null
  }

  /** The font name `getTypeface` picks: the asset key wins when it holds a
      non-null value, then the file key; `None` when neither does. A
      non-string value under the chosen key fails its cast, and nothing in
      `getTypeface` catches that. */
  function FontName(themeConfig: map<string, ThemeValue>, fileKey: string, assetKey: string): (r: Result<Option<string>>)
    ensures r == Ok(None) <==> !HoldsValue(themeConfig, assetKey) && !HoldsValue(themeConfig, fileKey)
    ensures r.Ok? && r.value.Some? ==>
              (HoldsValue(themeConfig, assetKey) && themeConfig[assetKey] == Str(r.value.value))
              || (!HoldsValue(themeConfig, assetKey) && themeConfig[fileKey] == Str(r.value.value))
    ensures r.Err? ==>
              r.failure == ClassCast
              && ((HoldsValue(themeConfig, assetKey) && themeConfig[assetKey] == OtherValue)
                  || (!HoldsValue(themeConfig, assetKey) && themeConfig[fileKey] == OtherValue))
  {
    if HoldsValue(themeConfig, assetKey) then
      (if themeConfig[assetKey].Str? then Ok(Some(themeConfig[assetKey].s)) else Err(ClassCast))
    else if HoldsValue(themeConfig, fileKey) then
      (if themeConfig[fileKey].Str? then Ok(Some(themeConfig[fileKey].s)) else Err(ClassCast))
    else Ok(None)
  }

  /** The typeface `getTypeface` yields: DEFAULT when no name was found,
      otherwise one made from the name. */
  datatype Typeface = DefaultTypeface | FontNamed(name: string)

  /** `getTypeface`: the asset key's value is used when it is non-null, else
      the file key's; DEFAULT when neither holds one. */
  function GetTypeface(themeConfig: map<string, ThemeValue>, fileKey: string, assetKey: string): (r: Result<Typeface>)
    ensures r == Ok(DefaultTypeface) <==> !HoldsValue(themeConfig, assetKey) && !HoldsValue(themeConfig, fileKey)
    ensures r.Ok? && r.value.FontNamed? ==>
              (HoldsValue(themeConfig, assetKey) && themeConfig[assetKey] == Str(r.value.name))
              || (!HoldsValue(themeConfig, assetKey) && themeConfig[fileKey] == Str(r.value.name))
    ensures r.Err? ==>
              r.failure == ClassCast
              && ((HoldsValue(themeConfig, assetKey) && themeConfig[assetKey] == OtherValue)
                  || (!HoldsValue(themeConfig, assetKey) && themeConfig[fileKey] == OtherValue))
  {
    match FontName(themeConfig, fileKey, assetKey)
    case Err(f) => Err(f)
    case Ok(None) => Ok(DefaultTypeface)
    case Ok(Some(name)) => Ok(FontNamed(name))
  }

  /** Which font slot of the theme builder a font type selects. */
  datatype FontSlot = PrimaryFont | SecondaryFont | CtaFont

  function SlotOf(fontType: string): Option<FontSlot>
  {
    if fontType == "primary" then Some(PrimaryFont)
    else if fontType == "secondary" then Some(SecondaryFont)
    else if fontType == "CTA" then Some(CtaFont)
    else None
  }

  /** `setFontIfPresent`: when either key is present in the map (even with a
      null value) the typeface is looked up and set on the slot the font type
      names; otherwise nothing is set. */
  function SetFontIfPresent(themeConfig: map<string, ThemeValue>, fileKey: string, assetKey: string,
                            fontType: string): (r: Result<Option<(FontSlot, Typeface)>>)
    ensures fileKey !in themeConfig && assetKey !in themeConfig ==> r == Ok(None)
    ensures r.Err? <==> (fileKey in themeConfig || assetKey in themeConfig) && GetTypeface(themeConfig, fileKey, assetKey).Err?
    ensures r.Ok? && r.value.Some? ==>
              SlotOf(fontType) == Some(r.value.value.0)
              && GetTypeface(themeConfig, fileKey, assetKey) == Ok(r.value.value.1)
    ensures (fileKey in themeConfig || assetKey in themeConfig)
            && GetTypeface(themeConfig, fileKey, assetKey).Ok? && SlotOf(fontType).Some? ==>
              r == Ok(Some((SlotOf(fontType).value, GetTypeface(themeConfig, fileKey, assetKey).value)))
    ensures SlotOf(fontType).None? && r.Ok? ==> r == Ok(None)
  {
    if fileKey in themeConfig || assetKey in themeConfig then
      match GetTypeface(themeConfig, fileKey, assetKey)
      case Err(f) => Err(f)
      case Ok(typeface) =>
        match SlotOf(fontType)
        case None => Ok(None)
        case Some(slot) => Ok(Some((slot, typeface)))
    else Ok(None)
  }

  /** The asset key takes precedence: with both keys holding names, the font
      comes from the asset key; with only the file key holding one, it comes
      from the file key; and a present key whose value is null sets the
      DEFAULT typeface. */
  lemma {:induction false} FontKeyPrecedence(fileKey: string, assetKey: string, fileFont: string, assetFont: string)
    requires fileKey != assetKey
    ensures SetFontIfPresent(map[fileKey := Str(fileFont), assetKey := Str(assetFont)], fileKey, assetKey, "primary")
            == Ok(Some((PrimaryFont, FontNamed(assetFont))))
    ensures SetFontIfPresent(map[fileKey := Str(fileFont), assetKey := Null], fileKey, assetKey, "secondary")
            == Ok(Some((SecondaryFont, FontNamed(fileFont))))
    ensures SetFontIfPresent(map[assetKey := Null], fileKey, assetKey, "CTA")
            == Ok(Some((CtaFont, DefaultTypeface)))
  {
  }
}
