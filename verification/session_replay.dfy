/** The session-replay host API: four boolean switches passed straight to the
    SDK, two closed enum translations that reject anything they do not know,
    and a capture interval with a lower bound. */
module SessionReplayApi {
  import opened Common

  /** The capturing modes the channel can carry. `UnknownCapturingMode` stands
      for any value outside the three the adapter's switch names. */
  datatype CapturingModeArg = Navigation | Interaction | Frequency | UnknownCapturingMode(name: string)

  /** The quality modes the channel can carry, with the same convention. */
  datatype QualityModeArg = Normal | High | GreyScale | UnknownQualityMode(name: string)

  /** The SDK's `CapturingMode` constants. */
  datatype SdkCapturingMode = SdkNavigation | SdkInteractions | SdkFrequency

  /** The SDK's `ScreenshotQuality` constants. */
  datatype SdkQuality = SdkNormal | SdkHigh | SdkGreyscale

  /** The calls this API makes on the SDK's `SessionReplay` facade. */
  datatype ReplayCall =
    | SetEnabled(enabled: bool)
    | SetNetworkLogsEnabled(enabled: bool)
    | SetLuciqLogsEnabled(enabled: bool)
    | SetUserStepsEnabled(enabled: bool)
    | SetCapturingMode(mode: SdkCapturingMode)
    | SetScreenshotCaptureInterval(intervalMs: int)
    | SetScreenshotQuality(quality: SdkQuality)

  const MinCaptureIntervalMs: int := 500

  /** The four boolean switches. */
  datatype Switch = ReplaySwitch | NetworkLogsSwitch | LuciqLogsSwitch | UserStepsSwitch

  /** `setEnabled`, `setNetworkLogsEnabled`, `setLuciqLogsEnabled` and
      `setUserStepsEnabled`: one SDK call carrying the flag unchanged. */
  function SetSwitch(s: Switch, isEnabled: bool): (e: Effect<ReplayCall>)
    ensures e.thrown == None && |e.calls| == 1
    ensures SwitchOf(e.calls[0]) == Some(s)
    ensures FlagOf(e.calls[0]) == Some(isEnabled)
  {
    match s
    case ReplaySwitch => Done([SetEnabled(isEnabled)])
    case NetworkLogsSwitch => Done([SetNetworkLogsEnabled(isEnabled)])
    case LuciqLogsSwitch => Done([SetLuciqLogsEnabled(isEnabled)])
    case UserStepsSwitch => Done([SetUserStepsEnabled(isEnabled)])
  }

  /** Which switch an SDK call sets, if it sets one. */
  function SwitchOf(c: ReplayCall): Option<Switch>
  {
    match c
    case SetEnabled(_) => Some(ReplaySwitch)
    case SetNetworkLogsEnabled(_) => Some(NetworkLogsSwitch)
    case SetLuciqLogsEnabled(_) => Some(LuciqLogsSwitch)
    case SetUserStepsEnabled(_) => Some(UserStepsSwitch)
    case _ => None
  }

  /** The flag an SDK call carries, if it is a switch call. */
  function FlagOf(c: ReplayCall): Option<bool>
  {
    match c
    case SetEnabled(b) => Some(b)
    case SetNetworkLogsEnabled(b) => Some(b)
    case SetLuciqLogsEnabled(b) => Some(b)
    case SetUserStepsEnabled(b) => Some(b)
    case _ => None
  }

  /** Distinct switches, or distinct flags, give distinct SDK calls. */
  lemma {:induction false} SwitchesInjective(s1: Switch, b1: bool, s2: Switch, b2: bool)
    ensures SetSwitch(s1, b1) == SetSwitch(s2, b2) <==> s1 == s2 && b1 == b2
  {
    if SetSwitch(s1, b1) == SetSwitch(s2, b2) {
      assert SwitchOf(SetSwitch(s1, b1).calls[0]) == SwitchOf(SetSwitch(s2, b2).calls[0]);
      assert FlagOf(SetSwitch(s1, b1).calls[0]) == FlagOf(SetSwitch(s2, b2).calls[0]);
    }
  }

  /** The error for a capturing mode the switch does not name. */
  function InvalidCapturingMode(name: string): Failure
  {
    FlutterError("INVALID_CAPTURING_MODE", "Unknown ScreenshotCapturingMode: " + name, TextDetails(name))
  }

  /** The error for a quality mode the switch does not name. */
  function InvalidQualityMode(name: string): Failure
  {
    FlutterError("INVALID_QUALITY_MODE", "Unknown ScreenshotQualityMode: " + name, TextDetails(name))
  }

  /** The error for an interval below the bound, carrying the interval. */
  function InvalidCaptureInterval(intervalMs: int): Failure
  {
    FlutterError("INVALID_CAPTURE_INTERVAL", "intervalMs must be >= 500 on Android", NumberDetails(intervalMs))
  }

  /** `setScreenshotCapturingMode`: the three known modes become one SDK call;
      any other value throws `INVALID_CAPTURING_MODE` naming the value, and the
      SDK is not called. */
  function SetScreenshotCapturingMode(mode: CapturingModeArg): (e: Effect<ReplayCall>)
    ensures mode.UnknownCapturingMode? <==> e.thrown.Some?
    ensures mode.UnknownCapturingMode? ==> e == Threw([], InvalidCapturingMode(mode.name))
    ensures mode == Navigation ==> e == Done([SetCapturingMode(SdkNavigation)])
    ensures mode == Interaction ==> e == Done([SetCapturingMode(SdkInteractions)])
    ensures mode == Frequency ==> e == Done([SetCapturingMode(SdkFrequency)])
  {
    match mode
    case Navigation => Done([SetCapturingMode(SdkNavigation)])
    case Interaction => Done([SetCapturingMode(SdkInteractions)])
    case Frequency => Done([SetCapturingMode(SdkFrequency)])
    case UnknownCapturingMode(name) => Threw([], InvalidCapturingMode(name))
  }

  /** The channel value that selects a given SDK capturing mode. */
  function CapturingModeArgOf(m: SdkCapturingMode): CapturingModeArg
  {
    match m
    case SdkNavigation => Navigation
    case SdkInteractions => Interaction
    case SdkFrequency => Frequency
  }

  /** The capturing-mode translation is a bijection between the three known
      channel values and the three SDK modes: every SDK mode is reached, by
      exactly the value `CapturingModeArgOf` names. */
  lemma {:induction false} CapturingModeBijection(mode: CapturingModeArg, m: SdkCapturingMode)
    ensures SetScreenshotCapturingMode(mode) == Done([SetCapturingMode(m)]) <==> mode == CapturingModeArgOf(m)
  {
    match m
    case SdkNavigation =>
    case SdkInteractions =>
    case SdkFrequency =>
  }

  /** `setScreenshotQualityMode`: the three known modes become one SDK call;
      any other value throws `INVALID_QUALITY_MODE` naming the value, and the
      SDK is not called. */
  function SetScreenshotQualityMode(mode: QualityModeArg): (e: Effect<ReplayCall>)
    ensures mode.UnknownQualityMode? <==> e.thrown.Some?
    ensures mode.UnknownQualityMode? ==> e == Threw([], InvalidQualityMode(mode.name))
    ensures mode == Normal ==> e == Done([SetScreenshotQuality(SdkNormal)])
    ensures mode == High ==> e == Done([SetScreenshotQuality(SdkHigh)])
    ensures mode == GreyScale ==> e == Done([SetScreenshotQuality(SdkGreyscale)])
  {
    match mode
    case Normal => Done([SetScreenshotQuality(SdkNormal)])
    case High => Done([SetScreenshotQuality(SdkHigh)])
    case GreyScale => Done([SetScreenshotQuality(SdkGreyscale)])
    case UnknownQualityMode(name) => Threw([], InvalidQualityMode(name))
  }

  /** The channel value that selects a given SDK quality. */
  function QualityModeArgOf(q: SdkQuality): QualityModeArg
  {
    match q
    case SdkNormal => Normal
    case SdkHigh => High
    case SdkGreyscale => GreyScale
  }

  /** The quality translation is a bijection between the three known channel
      values and the three SDK qualities. */
  lemma {:induction false} QualityModeBijection(mode: QualityModeArg, q: SdkQuality)
    ensures SetScreenshotQualityMode(mode) == Done([SetScreenshotQuality(q)]) <==> mode == QualityModeArgOf(q)
  {
    match q
    case SdkNormal =>
    case SdkHigh =>
    case SdkGreyscale =>
  }

  /** `setScreenshotCaptureInterval` as written: an interval below 500 ms
      throws `INVALID_CAPTURE_INTERVAL` without calling the SDK; any other
      `Long` is passed on as its `intValue()`, that is, wrapped to 32 bits. */
  function SetCaptureIntervalAsWritten(intervalMs: int): (e: Effect<ReplayCall>)
    ensures intervalMs < MinCaptureIntervalMs <==> e.thrown.Some?
    ensures intervalMs < MinCaptureIntervalMs ==> e == Threw([], InvalidCaptureInterval(intervalMs))
    ensures intervalMs >= MinCaptureIntervalMs ==>
              |e.calls| == 1 && e.calls[0].SetScreenshotCaptureInterval?
              && InIntRange(e.calls[0].intervalMs)
              && (e.calls[0].intervalMs - intervalMs) % TwoTo32 == 0
              && (InIntRange(intervalMs) ==> e.calls[0].intervalMs == intervalMs)
  {
    if intervalMs < MinCaptureIntervalMs then Threw([], InvalidCaptureInterval(intervalMs))
    else Done([SetScreenshotCaptureInterval(IntValue(intervalMs))])
  }

  /** The guard is meant to keep intervals under 500 ms away from the SDK, but
      2^32 ms passes it and reaches the SDK as 0, and 2^31 ms reaches it as a
      negative interval. */
  lemma IntervalGuardBypassed()
    ensures SetCaptureIntervalAsWritten(0x1_0000_0000) == Done([SetScreenshotCaptureInterval(0)])
    ensures SetCaptureIntervalAsWritten(0x8000_0000) == Done([SetScreenshotCaptureInterval(-0x8000_0000)])
  {
  }

  /** `setScreenshotCaptureInterval` with the guard the bound evidently
      intends: an interval the SDK's `int` cannot hold is rejected with the
      same error instead of being wrapped. */
  function SetCaptureInterval(intervalMs: int): (e: Effect<ReplayCall>)
    ensures e.thrown.Some? <==> !(MinCaptureIntervalMs <= intervalMs <= IntMax)
    ensures e.thrown.Some? ==> e == Threw([], InvalidCaptureInterval(intervalMs))
    ensures e.thrown == None ==> e == Done([SetScreenshotCaptureInterval(intervalMs)])
  {
    if intervalMs < MinCaptureIntervalMs || intervalMs > IntMax then Threw([], InvalidCaptureInterval(intervalMs))
    else Done([SetScreenshotCaptureInterval(IntValue(intervalMs))])
  }

  /** Whatever interval reaches the SDK through the corrected setter is the
      caller's own value and is at least 500 ms; and every such value gets
      through. The as-written setter agrees with it wherever it accepts. */
  lemma {:induction false} CaptureIntervalSound(intervalMs: int)
    ensures SetCaptureInterval(intervalMs).thrown == None ==>
              SetCaptureInterval(intervalMs).calls == [SetScreenshotCaptureInterval(intervalMs)]
              && MinCaptureIntervalMs <= intervalMs
    ensures MinCaptureIntervalMs <= intervalMs <= IntMax ==>
              SetCaptureInterval(intervalMs) == Done([SetScreenshotCaptureInterval(intervalMs)])
              && SetCaptureIntervalAsWritten(intervalMs) == SetCaptureInterval(intervalMs)
  {
    if MinCaptureIntervalMs <= intervalMs <= IntMax {
      assert IntValue(intervalMs) == intervalMs;
    }
  }
}
