/** The string-keyed tables that turn identifiers sent by the cross-platform
    side ("LogLevel.debug", "ReportType.bug", ...) into SDK constants, and the
    strict lookup every adapter goes through. Each SDK constant family is an
    enumeration here; the SDK's concrete integer codes are not part of this
    model. */
module ArgsRegistry {
  import opened Common

  datatype LogLevel = LevelNone | LevelError | LevelDebug | LevelVerbose
  datatype InvocationEvent = EventNone | Shake | FloatingButton | Screenshot | TwoFingerSwipeLeft
  datatype InvocationOption = EmailFieldHidden | EmailFieldOptional | CommentFieldRequired | DisablePostSendingDialog
  datatype MaskingType = Labels | TextInputs | Media | MaskNothing
  datatype FloatingButtonEdge = EdgeLeft | EdgeRight
  datatype ReportType = Bug | Feedback | Question
  datatype ReproMode = EnableWithNoScreenshots | EnableWithScreenshots | Disable

  /** The SDK's custom-text placeholder keys. */
  datatype PlaceholderKey =
    | ShakeHint
    | SwipeHint
    | InvalidEmailMessage
    | EmailFieldHint
    | CommentFieldHintForBugReport
    | CommentFieldHintForFeedback
    | CommentFieldHintForQuestion
    | InvocationHeader
    | ReportQuestion
    | ReportBug
    | ReportFeedback
    | ConversationsListTitle
    | AddVoiceMessage
    | AddImageFromGallery
    | AddExtraScreenshot
    | AddVideo
    | AudioRecordingPermissionDenied
    | VoiceMessagePressAndHoldToRecord
    | VoiceMessageReleaseToAttach
    | SuccessDialogHeader
    | VideoRecordingFabBubbleHint
    | ConversationTextFieldHint
    | ReportSuccessfullySent
    | BetaWelcomeMessageWelcomeStepTitle
    | BetaWelcomeMessageWelcomeStepContent
    | BetaWelcomeMessageHowToReportStepTitle
    | BetaWelcomeMessageHowToReportStepContent
    | BetaWelcomeMessageFinishStepTitle
    | BetaWelcomeMessageFinishStepContent
    | LiveWelcomeMessageTitle
    | LiveWelcomeMessageContent
    | SurveysStoreRatingThanksTitle
    | SurveysStoreRatingThanksSubtitle
    | ReportBugDescription
    | ReportFeedbackDescription
    | ReportQuestionDescription
    | RequestFeatureDescription
    | ReportDiscardDialogTitle
    | ReportDiscardDialogBody
    | ReportDiscardDialogNegativeAction
    | ReportDiscardDialogPositiveAction
    | ReportAddAttachmentHeader
    | ReportReproStepsDisclaimerBody
    | ReportReproStepsDisclaimerLink
    | ReproStepsProgressDialogBody
    | ReproStepsListHeader
    | ReproStepsListDescription
    | ReproStepsListEmptyStateDescription
    | ReproStepsListItemNumberingTitle
    | ChatsTeamStringName
    | RepliesNotificationReplyButton
    | RepliesNotificationDismissButton
    | BugAttachmentDialogOkButton
    | ChatsTypeAudio
    | ChatsTypeImage
    | ChatsTypeVideo
    | ChatsMultipleMessageNotification
    | CommentFieldInsufficientContent

  /** `ArgsMap.get`: the value stored under `key`, or a NullPointerException
      from `Objects.requireNonNull` when the key is absent. It never yields null. */
  function Get<T>(m: map<string, T>, key: string): (r: Result<T>)
    ensures r.Ok? <==> key in m
    ensures r.Ok? ==> r.value == m[key]
    ensures r.Err? ==> r.failure == NullPointer
  {
    if key in m then Ok(m[key]) else Err(NullPointer)
  }

  /** The loop every list-taking adapter runs: translate each key through `m`
      into an array of the same length, in order. The first missing key throws
      and no array is produced. */
  function TranslateAll<T>(m: map<string, T>, keys: seq<string>): (r: Result<seq<T>>)
    ensures r.Ok? <==> forall i :: 0 <= i < |keys| ==> keys[i] in m
    ensures r.Ok? ==> |r.value| == |keys|
    ensures r.Ok? ==> forall i :: 0 <= i < |keys| ==> r.value[i] == m[keys[i]]
    ensures r.Err? ==> r.failure == NullPointer
    decreases |keys|
  {
    if |keys| == 0 then Ok([])
    else
      match Get(m, keys[0])
      case Err(f) => Err(f)
      case Ok(v) =>
        match TranslateAll(m, keys[1..])
        case Err(f) => Err(f)
        case Ok(vs) => Ok([v] + vs)
  }

  const SdkLogLevels: map<string, LogLevel> := map[
      "LogLevel.none" := LevelNone,
      "LogLevel.error" := LevelError,
      "LogLevel.debug" := LevelDebug,
      "LogLevel.verbose" := LevelVerbose
    ]

  const InvocationEvents: map<string, InvocationEvent> := map[
      "InvocationEvent.none" := EventNone,
      "InvocationEvent.shake" := Shake,
      "InvocationEvent.floatingButton" := FloatingButton,
      "InvocationEvent.screenshot" := Screenshot,
      "InvocationEvent.twoFingersSwipeLeft" := TwoFingerSwipeLeft
    ]

  const InvocationOptions: map<string, InvocationOption> := map[
      "InvocationOption.emailFieldHidden" := EmailFieldHidden,
      "InvocationOption.emailFieldOptional" := EmailFieldOptional,
      "InvocationOption.commentFieldRequired" := CommentFieldRequired,
      "InvocationOption.disablePostSendingDialog" := DisablePostSendingDialog
    ]

  const AutoMasking: map<string, MaskingType> := map[
      "AutoMasking.labels" := Labels,
      "AutoMasking.textInputs" := TextInputs,
      "AutoMasking.media" := Media,
      "AutoMasking.none" := MaskNothing
    ]

  const FloatingButtonEdges: map<string, FloatingButtonEdge> := map[
      "FloatingButtonEdge.left" := EdgeLeft,
      "FloatingButtonEdge.right" := EdgeRight
    ]

  const ReportTypes: map<string, ReportType> := map[
      "ReportType.bug" := Bug,
      "ReportType.feedback" := Feedback,
      "ReportType.question" := Question
    ]

  const ReproModes: map<string, ReproMode> := map[
      "ReproStepsMode.enabledWithNoScreenshots" := EnableWithNoScreenshots,
      "ReproStepsMode.enabled" := EnableWithScreenshots,
      "ReproStepsMode.disabled" := Disable
    ]

  /** `placeholders`, written as the union of five blocks of the source's
      table, in the source's order. No identifier appears in two blocks
      (`PlaceholderBlocksDisjoint`), so the union is the source's table. */
  const Placeholders: map<string, PlaceholderKey> :=
    PlaceholderHints + PlaceholderMedia + PlaceholderOnboarding + PlaceholderDialogs + PlaceholderChats

  /** shake, swipe, e-mail and comment-field hints, report titles */
  const PlaceholderHints: map<string, PlaceholderKey> := map[
      "CustomTextPlaceHolderKey.shakeHint" := ShakeHint,
      "CustomTextPlaceHolderKey.swipeHint" := SwipeHint,
      "CustomTextPlaceHolderKey.invalidEmailMessage" := InvalidEmailMessage,
      "CustomTextPlaceHolderKey.emailFieldHint" := EmailFieldHint,
      "CustomTextPlaceHolderKey.commentFieldHintForBugReport" := CommentFieldHintForBugReport,
      "CustomTextPlaceHolderKey.commentFieldHintForFeedback" := CommentFieldHintForFeedback,
      "CustomTextPlaceHolderKey.commentFieldHintForQuestion" := CommentFieldHintForQuestion,
      "CustomTextPlaceHolderKey.invocationHeader" := InvocationHeader,
      "CustomTextPlaceHolderKey.reportQuestion" := ReportQuestion,
      "CustomTextPlaceHolderKey.reportBug" := ReportBug,
      "CustomTextPlaceHolderKey.reportFeedback" := ReportFeedback,
      "CustomTextPlaceHolderKey.conversationsListTitle" := ConversationsListTitle
    ]

  /** attachments, voice and video messages, success texts */
  const PlaceholderMedia: map<string, PlaceholderKey> := map[
      "CustomTextPlaceHolderKey.addVoiceMessage" := AddVoiceMessage,
      "CustomTextPlaceHolderKey.addImageFromGallery" := AddImageFromGallery,
      "CustomTextPlaceHolderKey.addExtraScreenshot" := AddExtraScreenshot,
      "CustomTextPlaceHolderKey.addVideo" := AddVideo,
      "CustomTextPlaceHolderKey.audioRecordingPermissionDenied" := AudioRecordingPermissionDenied,
      "CustomTextPlaceHolderKey.voiceMessagePressAndHoldToRecord" := VoiceMessagePressAndHoldToRecord,
      "CustomTextPlaceHolderKey.voiceMessageReleaseToAttach" := VoiceMessageReleaseToAttach,
      "CustomTextPlaceHolderKey.successDialogHeader" := SuccessDialogHeader,
      "CustomTextPlaceHolderKey.videoPressRecord" := VideoRecordingFabBubbleHint,
      "CustomTextPlaceHolderKey.conversationTextFieldHint" := ConversationTextFieldHint,
      "CustomTextPlaceHolderKey.reportSuccessfullySent" := ReportSuccessfullySent
    ]

  /** welcome-message and survey texts */
  const PlaceholderOnboarding: map<string, PlaceholderKey> := map[
      "CustomTextPlaceHolderKey.betaWelcomeMessageWelcomeStepTitle" := BetaWelcomeMessageWelcomeStepTitle,
      "CustomTextPlaceHolderKey.betaWelcomeMessageWelcomeStepContent" := BetaWelcomeMessageWelcomeStepContent,
      "CustomTextPlaceHolderKey.betaWelcomeMessageHowToReportStepTitle" := BetaWelcomeMessageHowToReportStepTitle,
      "CustomTextPlaceHolderKey.betaWelcomeMessageHowToReportStepContent" := BetaWelcomeMessageHowToReportStepContent,
      "CustomTextPlaceHolderKey.betaWelcomeMessageFinishStepTitle" := BetaWelcomeMessageFinishStepTitle,
      "CustomTextPlaceHolderKey.betaWelcomeMessageFinishStepContent" := BetaWelcomeMessageFinishStepContent,
      "CustomTextPlaceHolderKey.liveWelcomeMessageTitle" := LiveWelcomeMessageTitle,
      "CustomTextPlaceHolderKey.liveWelcomeMessageContent" := LiveWelcomeMessageContent,
      "CustomTextPlaceHolderKey.surveysStoreRatingThanksTitle" := SurveysStoreRatingThanksTitle,
      "CustomTextPlaceHolderKey.surveysStoreRatingThanksSubtitle" := SurveysStoreRatingThanksSubtitle
    ]

  /** report descriptions, discard dialog and repro-steps texts */
  const PlaceholderDialogs: map<string, PlaceholderKey> := map[
      "CustomTextPlaceHolderKey.reportBugDescription" := ReportBugDescription,
      "CustomTextPlaceHolderKey.reportFeedbackDescription" := ReportFeedbackDescription,
      "CustomTextPlaceHolderKey.reportQuestionDescription" := ReportQuestionDescription,
      "CustomTextPlaceHolderKey.requestFeatureDescription" := RequestFeatureDescription,
      "CustomTextPlaceHolderKey.discardAlertTitle" := ReportDiscardDialogTitle,
      "CustomTextPlaceHolderKey.discardAlertMessage" := ReportDiscardDialogBody,
      "CustomTextPlaceHolderKey.discardAlertCancel" := ReportDiscardDialogNegativeAction,
      "CustomTextPlaceHolderKey.discardAlertAction" := ReportDiscardDialogPositiveAction,
      "CustomTextPlaceHolderKey.addAttachmentButtonTitleStringName" := ReportAddAttachmentHeader,
      "CustomTextPlaceHolderKey.reportReproStepsDisclaimerBody" := ReportReproStepsDisclaimerBody,
      "CustomTextPlaceHolderKey.reportReproStepsDisclaimerLink" := ReportReproStepsDisclaimerLink,
      "CustomTextPlaceHolderKey.reproStepsProgressDialogBody" := ReproStepsProgressDialogBody,
      "CustomTextPlaceHolderKey.reproStepsListHeader" := ReproStepsListHeader
    ]

  /** repro-steps list, replies and chat texts */
  const PlaceholderChats: map<string, PlaceholderKey> := map[
      "CustomTextPlaceHolderKey.reproStepsListDescription" := ReproStepsListDescription,
      "CustomTextPlaceHolderKey.reproStepsListEmptyStateDescription" := ReproStepsListEmptyStateDescription,
      "CustomTextPlaceHolderKey.reproStepsListItemTitle" := ReproStepsListItemNumberingTitle,
      "CustomTextPlaceHolderKey.repliesNotificationTeamName" := ChatsTeamStringName,
      "CustomTextPlaceHolderKey.repliesNotificationReplyButton" := RepliesNotificationReplyButton,
      "CustomTextPlaceHolderKey.repliesNotificationDismissButton" := RepliesNotificationDismissButton,
      "CustomTextPlaceHolderKey.okButtonText" := BugAttachmentDialogOkButton,
      "CustomTextPlaceHolderKey.audio" := ChatsTypeAudio,
      "CustomTextPlaceHolderKey.image" := ChatsTypeImage,
      "CustomTextPlaceHolderKey.screenRecording" := ChatsTypeVideo,
      "CustomTextPlaceHolderKey.messagesNotificationAndOthers" := ChatsMultipleMessageNotification,
      "CustomTextPlaceHolderKey.insufficientContentMessage" := CommentFieldInsufficientContent
    ]

  /** Every log level the SDK defines can be selected, and only through the four
      `LogLevel.*` identifiers. */
  lemma SdkLogLevelsComplete()
    ensures SdkLogLevels.Keys == {"LogLevel.none", "LogLevel.error", "LogLevel.debug", "LogLevel.verbose"}
    ensures forall l: LogLevel :: l in SdkLogLevels.Values
  {
    forall l: LogLevel ensures l in SdkLogLevels.Values {
      match l
      case LevelNone => assert SdkLogLevels["LogLevel.none"] == l;
      case LevelError => assert SdkLogLevels["LogLevel.error"] == l;
      case LevelDebug => assert SdkLogLevels["LogLevel.debug"] == l;
      case LevelVerbose => assert SdkLogLevels["LogLevel.verbose"] == l;
    }
  }

  /** All five invocation events are reachable from some identifier. */
  lemma InvocationEventsComplete()
    ensures |InvocationEvents| == 5
    ensures forall e: InvocationEvent :: e in InvocationEvents.Values
  {
    forall e: InvocationEvent ensures e in InvocationEvents.Values {
      match e
      case EventNone => assert InvocationEvents["InvocationEvent.none"] == e;
      case Shake => assert InvocationEvents["InvocationEvent.shake"] == e;
      case FloatingButton => assert InvocationEvents["InvocationEvent.floatingButton"] == e;
      case Screenshot => assert InvocationEvents["InvocationEvent.screenshot"] == e;
      case TwoFingerSwipeLeft => assert InvocationEvents["InvocationEvent.twoFingersSwipeLeft"] == e;
    }
  }

  /** The repro-steps identifiers and the SDK modes they select; every mode is
      selectable. */
  lemma ReproModesTable()
    ensures ReproModes.Keys == {"ReproStepsMode.enabled", "ReproStepsMode.enabledWithNoScreenshots", "ReproStepsMode.disabled"}
    ensures ReproModes["ReproStepsMode.enabled"] == EnableWithScreenshots
    ensures ReproModes["ReproStepsMode.enabledWithNoScreenshots"] == EnableWithNoScreenshots
    ensures ReproModes["ReproStepsMode.disabled"] == Disable
    ensures forall m: ReproMode :: m in ReproModes.Values
  {
    forall m: ReproMode ensures m in ReproModes.Values {
      match m
      case EnableWithNoScreenshots => assert ReproModes["ReproStepsMode.enabledWithNoScreenshots"] == m;
      case EnableWithScreenshots => assert ReproModes["ReproStepsMode.enabled"] == m;
      case Disable => assert ReproModes["ReproStepsMode.disabled"] == m;
    }
  }

  /** The auto-masking identifiers and the masking types they select; every
      masking type is selectable. */
  lemma AutoMaskingTable()
    ensures AutoMasking.Keys == {"AutoMasking.labels", "AutoMasking.textInputs", "AutoMasking.media", "AutoMasking.none"}
    ensures AutoMasking["AutoMasking.labels"] == Labels
    ensures AutoMasking["AutoMasking.textInputs"] == TextInputs
    ensures AutoMasking["AutoMasking.media"] == Media
    ensures AutoMasking["AutoMasking.none"] == MaskNothing
    ensures forall t: MaskingType :: t in AutoMasking.Values
  {
    forall t: MaskingType ensures t in AutoMasking.Values {
      match t
      case Labels => assert AutoMasking["AutoMasking.labels"] == t;
      case TextInputs => assert AutoMasking["AutoMasking.textInputs"] == t;
      case Media => assert AutoMasking["AutoMasking.media"] == t;
      case MaskNothing => assert AutoMasking["AutoMasking.none"] == t;
    }
  }

  /** The values of a union of maps with disjoint keys are the union of their values. */
  lemma UnionValues<K, V>(a: map<K, V>, b: map<K, V>)
    requires a.Keys !! b.Keys
    ensures (a + b).Values == a.Values + b.Values
  {
    forall v | v in a.Values ensures v in (a + b).Values {
      var k :| k in a && a[k] == v;
      assert (a + b)[k] == v;
    }
    forall v | v in b.Values ensures v in (a + b).Values {
      var k :| k in b && b[k] == v;
      assert (a + b)[k] == v;
    }
  }

  /** The identifiers of each block, as sets; the blocks' disjointness is
      checked on these. */
  const HintsIds: set<string> := {
              "CustomTextPlaceHolderKey.shakeHint",
              "CustomTextPlaceHolderKey.swipeHint",
              "CustomTextPlaceHolderKey.invalidEmailMessage",
              "CustomTextPlaceHolderKey.emailFieldHint",
              "CustomTextPlaceHolderKey.commentFieldHintForBugReport",
              "CustomTextPlaceHolderKey.commentFieldHintForFeedback",
              "CustomTextPlaceHolderKey.commentFieldHintForQuestion",
              "CustomTextPlaceHolderKey.invocationHeader",
              "CustomTextPlaceHolderKey.reportQuestion",
              "CustomTextPlaceHolderKey.reportBug",
              "CustomTextPlaceHolderKey.reportFeedback",
              "CustomTextPlaceHolderKey.conversationsListTitle"}

  const MediaIds: set<string> := {
              "CustomTextPlaceHolderKey.addVoiceMessage",
              "CustomTextPlaceHolderKey.addImageFromGallery",
              "CustomTextPlaceHolderKey.addExtraScreenshot",
              "CustomTextPlaceHolderKey.addVideo",
              "CustomTextPlaceHolderKey.audioRecordingPermissionDenied",
              "CustomTextPlaceHolderKey.voiceMessagePressAndHoldToRecord",
              "CustomTextPlaceHolderKey.voiceMessageReleaseToAttach",
              "CustomTextPlaceHolderKey.successDialogHeader",
              "CustomTextPlaceHolderKey.videoPressRecord",
              "CustomTextPlaceHolderKey.conversationTextFieldHint",
              "CustomTextPlaceHolderKey.reportSuccessfullySent"}

  const OnboardingIds: set<string> := {
              "CustomTextPlaceHolderKey.betaWelcomeMessageWelcomeStepTitle",
              "CustomTextPlaceHolderKey.betaWelcomeMessageWelcomeStepContent",
              "CustomTextPlaceHolderKey.betaWelcomeMessageHowToReportStepTitle",
              "CustomTextPlaceHolderKey.betaWelcomeMessageHowToReportStepContent",
              "CustomTextPlaceHolderKey.betaWelcomeMessageFinishStepTitle",
              "CustomTextPlaceHolderKey.betaWelcomeMessageFinishStepContent",
              "CustomTextPlaceHolderKey.liveWelcomeMessageTitle",
              "CustomTextPlaceHolderKey.liveWelcomeMessageContent",
              "CustomTextPlaceHolderKey.surveysStoreRatingThanksTitle",
              "CustomTextPlaceHolderKey.surveysStoreRatingThanksSubtitle"}

  const DialogsIds: set<string> := {
              "CustomTextPlaceHolderKey.reportBugDescription",
              "CustomTextPlaceHolderKey.reportFeedbackDescription",
              "CustomTextPlaceHolderKey.reportQuestionDescription",
              "CustomTextPlaceHolderKey.requestFeatureDescription",
              "CustomTextPlaceHolderKey.discardAlertTitle",
              "CustomTextPlaceHolderKey.discardAlertMessage",
              "CustomTextPlaceHolderKey.discardAlertCancel",
              "CustomTextPlaceHolderKey.discardAlertAction",
              "CustomTextPlaceHolderKey.addAttachmentButtonTitleStringName",
              "CustomTextPlaceHolderKey.reportReproStepsDisclaimerBody",
              "CustomTextPlaceHolderKey.reportReproStepsDisclaimerLink",
              "CustomTextPlaceHolderKey.reproStepsProgressDialogBody",
              "CustomTextPlaceHolderKey.reproStepsListHeader"}

  const ChatsIds: set<string> := {
              "CustomTextPlaceHolderKey.reproStepsListDescription",
              "CustomTextPlaceHolderKey.reproStepsListEmptyStateDescription",
              "CustomTextPlaceHolderKey.reproStepsListItemTitle",
              "CustomTextPlaceHolderKey.repliesNotificationTeamName",
              "CustomTextPlaceHolderKey.repliesNotificationReplyButton",
              "CustomTextPlaceHolderKey.repliesNotificationDismissButton",
              "CustomTextPlaceHolderKey.okButtonText",
              "CustomTextPlaceHolderKey.audio",
              "CustomTextPlaceHolderKey.image",
              "CustomTextPlaceHolderKey.screenRecording",
              "CustomTextPlaceHolderKey.messagesNotificationAndOthers",
              "CustomTextPlaceHolderKey.insufficientContentMessage"}

  lemma HintsKeys()
    ensures PlaceholderHints.Keys == HintsIds
  {
  }

  lemma MediaKeys()
    ensures PlaceholderMedia.Keys == MediaIds
  {
  }

  lemma OnboardingKeys()
    ensures PlaceholderOnboarding.Keys == OnboardingIds
  {
  }

  lemma DialogsKeys()
    ensures PlaceholderDialogs.Keys == DialogsIds
  {
  }

  lemma ChatsKeys()
    ensures PlaceholderChats.Keys == ChatsIds
  {
  }

  lemma DisjointHintsMedia()
    ensures HintsIds !! MediaIds
  {
  }

  lemma DisjointHintsOnboarding()
    ensures HintsIds !! OnboardingIds
  {
  }

  lemma DisjointHintsDialogs()
    ensures HintsIds !! DialogsIds
  {
  }

  lemma DisjointHintsChats()
    ensures HintsIds !! ChatsIds
  {
  }

  lemma DisjointMediaOnboarding()
    ensures MediaIds !! OnboardingIds
  {
  }

  lemma DisjointMediaDialogs()
    ensures MediaIds !! DialogsIds
  {
  }

  lemma DisjointMediaChats()
    ensures MediaIds !! ChatsIds
  {
  }

  lemma DisjointOnboardingDialogs()
    ensures OnboardingIds !! DialogsIds
  {
  }

  lemma DisjointOnboardingChats()
    ensures OnboardingIds !! ChatsIds
  {
  }

  lemma DisjointDialogsChats()
    ensures DialogsIds !! ChatsIds
  {
  }

  /** No identifier appears in two blocks of the placeholder table. */
  lemma PlaceholderBlocksDisjoint()
    ensures (PlaceholderHints).Keys !! PlaceholderMedia.Keys
    ensures (PlaceholderHints + PlaceholderMedia).Keys !! PlaceholderOnboarding.Keys
    ensures (PlaceholderHints + PlaceholderMedia + PlaceholderOnboarding).Keys !! PlaceholderDialogs.Keys
    ensures (PlaceholderHints + PlaceholderMedia + PlaceholderOnboarding + PlaceholderDialogs).Keys !! PlaceholderChats.Keys
  {
    HintsKeys();
    MediaKeys();
    OnboardingKeys();
    DialogsKeys();
    ChatsKeys();
    DisjointHintsMedia();
    DisjointHintsOnboarding();
    DisjointHintsDialogs();
    DisjointHintsChats();
    DisjointMediaOnboarding();
    DisjointMediaDialogs();
    DisjointMediaChats();
    DisjointOnboardingDialogs();
    DisjointOnboardingChats();
    DisjointDialogsChats();
  }

  /** The block of the placeholder table that mentions `k`. */
  function BlockOf(k: PlaceholderKey): (b: nat)
    ensures b < 5
  {
    match k
    case ShakeHint => 0
    case SwipeHint => 0
    case InvalidEmailMessage => 0
    case EmailFieldHint => 0
    case CommentFieldHintForBugReport => 0
    case CommentFieldHintForFeedback => 0
    case CommentFieldHintForQuestion => 0
    case InvocationHeader => 0
    case ReportQuestion => 0
    case ReportBug => 0
    case ReportFeedback => 0
    case ConversationsListTitle => 0
    case AddVoiceMessage => 1
    case AddImageFromGallery => 1
    case AddExtraScreenshot => 1
    case AddVideo => 1
    case AudioRecordingPermissionDenied => 1
    case VoiceMessagePressAndHoldToRecord => 1
    case VoiceMessageReleaseToAttach => 1
    case SuccessDialogHeader => 1
    case VideoRecordingFabBubbleHint => 1
    case ConversationTextFieldHint => 1
    case ReportSuccessfullySent => 1
    case BetaWelcomeMessageWelcomeStepTitle => 2
    case BetaWelcomeMessageWelcomeStepContent => 2
    case BetaWelcomeMessageHowToReportStepTitle => 2
    case BetaWelcomeMessageHowToReportStepContent => 2
    case BetaWelcomeMessageFinishStepTitle => 2
    case BetaWelcomeMessageFinishStepContent => 2
    case LiveWelcomeMessageTitle => 2
    case LiveWelcomeMessageContent => 2
    case SurveysStoreRatingThanksTitle => 2
    case SurveysStoreRatingThanksSubtitle => 2
    case ReportBugDescription => 3
    case ReportFeedbackDescription => 3
    case ReportQuestionDescription => 3
    case RequestFeatureDescription => 3
    case ReportDiscardDialogTitle => 3
    case ReportDiscardDialogBody => 3
    case ReportDiscardDialogNegativeAction => 3
    case ReportDiscardDialogPositiveAction => 3
    case ReportAddAttachmentHeader => 3
    case ReportReproStepsDisclaimerBody => 3
    case ReportReproStepsDisclaimerLink => 3
    case ReproStepsProgressDialogBody => 3
    case ReproStepsListHeader => 3
    case ReproStepsListDescription => 4
    case ReproStepsListEmptyStateDescription => 4
    case ReproStepsListItemNumberingTitle => 4
    case ChatsTeamStringName => 4
    case RepliesNotificationReplyButton => 4
    case RepliesNotificationDismissButton => 4
    case BugAttachmentDialogOkButton => 4
    case ChatsTypeAudio => 4
    case ChatsTypeImage => 4
    case ChatsTypeVideo => 4
    case ChatsMultipleMessageNotification => 4
    case CommentFieldInsufficientContent => 4
  }

  lemma HintsCovered()
    ensures forall k :: BlockOf(k) == 0 ==> k in PlaceholderHints.Values
  {
    forall k | BlockOf(k) == 0 ensures k in PlaceholderHints.Values {
      match k
      case ShakeHint => assert PlaceholderHints["CustomTextPlaceHolderKey.shakeHint"] == ShakeHint;
      case SwipeHint => assert PlaceholderHints["CustomTextPlaceHolderKey.swipeHint"] == SwipeHint;
      case InvalidEmailMessage => assert PlaceholderHints["CustomTextPlaceHolderKey.invalidEmailMessage"] == InvalidEmailMessage;
      case EmailFieldHint => assert PlaceholderHints["CustomTextPlaceHolderKey.emailFieldHint"] == EmailFieldHint;
      case CommentFieldHintForBugReport => assert PlaceholderHints["CustomTextPlaceHolderKey.commentFieldHintForBugReport"] == CommentFieldHintForBugReport;
      case CommentFieldHintForFeedback => assert PlaceholderHints["CustomTextPlaceHolderKey.commentFieldHintForFeedback"] == CommentFieldHintForFeedback;
      case CommentFieldHintForQuestion => assert PlaceholderHints["CustomTextPlaceHolderKey.commentFieldHintForQuestion"] == CommentFieldHintForQuestion;
      case InvocationHeader => assert PlaceholderHints["CustomTextPlaceHolderKey.invocationHeader"] == InvocationHeader;
      case ReportQuestion => assert PlaceholderHints["CustomTextPlaceHolderKey.reportQuestion"] == ReportQuestion;
      case ReportBug => assert PlaceholderHints["CustomTextPlaceHolderKey.reportBug"] == ReportBug;
      case ReportFeedback => assert PlaceholderHints["CustomTextPlaceHolderKey.reportFeedback"] == ReportFeedback;
      case ConversationsListTitle => assert PlaceholderHints["CustomTextPlaceHolderKey.conversationsListTitle"] == ConversationsListTitle;
      case _ =>
    }
  }

  lemma MediaCovered()
    ensures forall k :: BlockOf(k) == 1 ==> k in PlaceholderMedia.Values
  {
    forall k | BlockOf(k) == 1 ensures k in PlaceholderMedia.Values {
      match k
      case AddVoiceMessage => assert PlaceholderMedia["CustomTextPlaceHolderKey.addVoiceMessage"] == AddVoiceMessage;
      case AddImageFromGallery => assert PlaceholderMedia["CustomTextPlaceHolderKey.addImageFromGallery"] == AddImageFromGallery;
      case AddExtraScreenshot => assert PlaceholderMedia["CustomTextPlaceHolderKey.addExtraScreenshot"] == AddExtraScreenshot;
      case AddVideo => assert PlaceholderMedia["CustomTextPlaceHolderKey.addVideo"] == AddVideo;
      case AudioRecordingPermissionDenied => assert PlaceholderMedia["CustomTextPlaceHolderKey.audioRecordingPermissionDenied"] == AudioRecordingPermissionDenied;
      case VoiceMessagePressAndHoldToRecord => assert PlaceholderMedia["CustomTextPlaceHolderKey.voiceMessagePressAndHoldToRecord"] == VoiceMessagePressAndHoldToRecord;
      case VoiceMessageReleaseToAttach => assert PlaceholderMedia["CustomTextPlaceHolderKey.voiceMessageReleaseToAttach"] == VoiceMessageReleaseToAttach;
      case SuccessDialogHeader => assert PlaceholderMedia["CustomTextPlaceHolderKey.successDialogHeader"] == SuccessDialogHeader;
      case VideoRecordingFabBubbleHint => assert PlaceholderMedia["CustomTextPlaceHolderKey.videoPressRecord"] == VideoRecordingFabBubbleHint;
      case ConversationTextFieldHint => assert PlaceholderMedia["CustomTextPlaceHolderKey.conversationTextFieldHint"] == ConversationTextFieldHint;
      case ReportSuccessfullySent => assert PlaceholderMedia["CustomTextPlaceHolderKey.reportSuccessfullySent"] == ReportSuccessfullySent;
      case _ =>
    }
  }

  lemma OnboardingCovered()
    ensures forall k :: BlockOf(k) == 2 ==> k in PlaceholderOnboarding.Values
  {
    forall k | BlockOf(k) == 2 ensures k in PlaceholderOnboarding.Values {
      match k
      case BetaWelcomeMessageWelcomeStepTitle => assert PlaceholderOnboarding["CustomTextPlaceHolderKey.betaWelcomeMessageWelcomeStepTitle"] == BetaWelcomeMessageWelcomeStepTitle;
      case BetaWelcomeMessageWelcomeStepContent => assert PlaceholderOnboarding["CustomTextPlaceHolderKey.betaWelcomeMessageWelcomeStepContent"] == BetaWelcomeMessageWelcomeStepContent;
      case BetaWelcomeMessageHowToReportStepTitle => assert PlaceholderOnboarding["CustomTextPlaceHolderKey.betaWelcomeMessageHowToReportStepTitle"] == BetaWelcomeMessageHowToReportStepTitle;
      case BetaWelcomeMessageHowToReportStepContent => assert PlaceholderOnboarding["CustomTextPlaceHolderKey.betaWelcomeMessageHowToReportStepContent"] == BetaWelcomeMessageHowToReportStepContent;
      case BetaWelcomeMessageFinishStepTitle => assert PlaceholderOnboarding["CustomTextPlaceHolderKey.betaWelcomeMessageFinishStepTitle"] == BetaWelcomeMessageFinishStepTitle;
      case BetaWelcomeMessageFinishStepContent => assert PlaceholderOnboarding["CustomTextPlaceHolderKey.betaWelcomeMessageFinishStepContent"] == BetaWelcomeMessageFinishStepContent;
      case LiveWelcomeMessageTitle => assert PlaceholderOnboarding["CustomTextPlaceHolderKey.liveWelcomeMessageTitle"] == LiveWelcomeMessageTitle;
      case LiveWelcomeMessageContent => assert PlaceholderOnboarding["CustomTextPlaceHolderKey.liveWelcomeMessageContent"] == LiveWelcomeMessageContent;
      case SurveysStoreRatingThanksTitle => assert PlaceholderOnboarding["CustomTextPlaceHolderKey.surveysStoreRatingThanksTitle"] == SurveysStoreRatingThanksTitle;
      case SurveysStoreRatingThanksSubtitle => assert PlaceholderOnboarding["CustomTextPlaceHolderKey.surveysStoreRatingThanksSubtitle"] == SurveysStoreRatingThanksSubtitle;
      case _ =>
    }
  }

  lemma DialogsCovered()
    ensures forall k :: BlockOf(k) == 3 ==> k in PlaceholderDialogs.Values
  {
    forall k | BlockOf(k) == 3 ensures k in PlaceholderDialogs.Values {
      match k
      case ReportBugDescription => assert PlaceholderDialogs["CustomTextPlaceHolderKey.reportBugDescription"] == ReportBugDescription;
      case ReportFeedbackDescription => assert PlaceholderDialogs["CustomTextPlaceHolderKey.reportFeedbackDescription"] == ReportFeedbackDescription;
      case ReportQuestionDescription => assert PlaceholderDialogs["CustomTextPlaceHolderKey.reportQuestionDescription"] == ReportQuestionDescription;
      case RequestFeatureDescription => assert PlaceholderDialogs["CustomTextPlaceHolderKey.requestFeatureDescription"] == RequestFeatureDescription;
      case ReportDiscardDialogTitle => assert PlaceholderDialogs["CustomTextPlaceHolderKey.discardAlertTitle"] == ReportDiscardDialogTitle;
      case ReportDiscardDialogBody => assert PlaceholderDialogs["CustomTextPlaceHolderKey.discardAlertMessage"] == ReportDiscardDialogBody;
      case ReportDiscardDialogNegativeAction => assert PlaceholderDialogs["CustomTextPlaceHolderKey.discardAlertCancel"] == ReportDiscardDialogNegativeAction;
      case ReportDiscardDialogPositiveAction => assert PlaceholderDialogs["CustomTextPlaceHolderKey.discardAlertAction"] == ReportDiscardDialogPositiveAction;
      case ReportAddAttachmentHeader => assert PlaceholderDialogs["CustomTextPlaceHolderKey.addAttachmentButtonTitleStringName"] == ReportAddAttachmentHeader;
      case ReportReproStepsDisclaimerBody => assert PlaceholderDialogs["CustomTextPlaceHolderKey.reportReproStepsDisclaimerBody"] == ReportReproStepsDisclaimerBody;
      case ReportReproStepsDisclaimerLink => assert PlaceholderDialogs["CustomTextPlaceHolderKey.reportReproStepsDisclaimerLink"] == ReportReproStepsDisclaimerLink;
      case ReproStepsProgressDialogBody => assert PlaceholderDialogs["CustomTextPlaceHolderKey.reproStepsProgressDialogBody"] == ReproStepsProgressDialogBody;
      case ReproStepsListHeader => assert PlaceholderDialogs["CustomTextPlaceHolderKey.reproStepsListHeader"] == ReproStepsListHeader;
      case _ =>
    }
  }

  lemma ChatsCovered()
    ensures forall k :: BlockOf(k) == 4 ==> k in PlaceholderChats.Values
  {
    forall k | BlockOf(k) == 4 ensures k in PlaceholderChats.Values {
      match k
      case ReproStepsListDescription => assert PlaceholderChats["CustomTextPlaceHolderKey.reproStepsListDescription"] == ReproStepsListDescription;
      case ReproStepsListEmptyStateDescription => assert PlaceholderChats["CustomTextPlaceHolderKey.reproStepsListEmptyStateDescription"] == ReproStepsListEmptyStateDescription;
      case ReproStepsListItemNumberingTitle => assert PlaceholderChats["CustomTextPlaceHolderKey.reproStepsListItemTitle"] == ReproStepsListItemNumberingTitle;
      case ChatsTeamStringName => assert PlaceholderChats["CustomTextPlaceHolderKey.repliesNotificationTeamName"] == ChatsTeamStringName;
      case RepliesNotificationReplyButton => assert PlaceholderChats["CustomTextPlaceHolderKey.repliesNotificationReplyButton"] == RepliesNotificationReplyButton;
      case RepliesNotificationDismissButton => assert PlaceholderChats["CustomTextPlaceHolderKey.repliesNotificationDismissButton"] == RepliesNotificationDismissButton;
      case BugAttachmentDialogOkButton => assert PlaceholderChats["CustomTextPlaceHolderKey.okButtonText"] == BugAttachmentDialogOkButton;
      case ChatsTypeAudio => assert PlaceholderChats["CustomTextPlaceHolderKey.audio"] == ChatsTypeAudio;
      case ChatsTypeImage => assert PlaceholderChats["CustomTextPlaceHolderKey.image"] == ChatsTypeImage;
      case ChatsTypeVideo => assert PlaceholderChats["CustomTextPlaceHolderKey.screenRecording"] == ChatsTypeVideo;
      case ChatsMultipleMessageNotification => assert PlaceholderChats["CustomTextPlaceHolderKey.messagesNotificationAndOthers"] == ChatsMultipleMessageNotification;
      case CommentFieldInsufficientContent => assert PlaceholderChats["CustomTextPlaceHolderKey.insufficientContentMessage"] == CommentFieldInsufficientContent;
      case _ =>
    }
  }

  /** The values of the placeholder table are the values of its five blocks. */
  lemma PlaceholderValues()
    ensures Placeholders.Values == PlaceholderHints.Values + PlaceholderMedia.Values + PlaceholderOnboarding.Values + PlaceholderDialogs.Values + PlaceholderChats.Values
  {
    PlaceholderBlocksDisjoint();
    UnionValues(PlaceholderHints, PlaceholderMedia);
    UnionValues(PlaceholderHints + PlaceholderMedia, PlaceholderOnboarding);
    UnionValues(PlaceholderHints + PlaceholderMedia + PlaceholderOnboarding, PlaceholderDialogs);
    UnionValues(PlaceholderHints + PlaceholderMedia + PlaceholderOnboarding + PlaceholderDialogs, PlaceholderChats);
  }

  /** Every custom-text placeholder key of the SDK is the image of some
      `CustomTextPlaceHolderKey.*` identifier. */
  lemma PlaceholdersComplete()
    ensures forall k: PlaceholderKey :: k in Placeholders.Values
  {
    PlaceholderValues();
    HintsCovered();
    MediaCovered();
    OnboardingCovered();
    DialogsCovered();
    ChatsCovered();
  }
}
