/** The bug-reporting host API: each entry point translates its string
    arguments through the registry and then calls the SDK's `BugReporting`
    facade. An entry point is modelled as the `Effect` it has: the SDK calls
    made, in order, and the exception that escaped, if any. */
module BugReportingApi {
  import opened Common
  import opened ArgsRegistry

  datatype FeatureState = Enabled | Disabled

  /** The calls this API makes on the SDK's `BugReporting` facade. */
  datatype BugCall =
    | SetState(state: FeatureState)
    | Show(reportType: ReportType, options: seq<InvocationOption>)
    | SetInvocationEvents(events: seq<InvocationEvent>)
    | SetReportTypes(types: seq<ReportType>)
    | SetOptions(options: seq<InvocationOption>)
    | SetFloatingButtonEdge(edge: FloatingButtonEdge)
    | SetFloatingButtonOffset(offset: int)
    | SetCommentMinimumCharacterCount(limit: int, types: seq<ReportType>)
    | AddUserConsent(key: string, description: string, mandatory: bool, checked: bool, actionType: Option<string>)

  /** `setEnabled`: one `setState` call, ENABLED for true and DISABLED for false. */
  function SetEnabled(isEnabled: bool): (e: Effect<BugCall>)
    ensures e.thrown == None && |e.calls| == 1 && e.calls[0].SetState?
    ensures e.calls[0].state == Enabled <==> isEnabled
  {
    if isEnabled then Done([SetState(Enabled)]) else Done([SetState(Disabled)])
  }

  /** `show`: the option list is translated first, then the report type; only
      then is the SDK called. A null option list is dereferenced (its size is
      read) and throws, although the parameter is declared nullable. */
  function ShowReport(reportType: string, invocationOptions: Option<seq<string>>): (e: Effect<BugCall>)
    ensures e.thrown == None <==>
              invocationOptions.Some? && reportType in ReportTypes
              && forall i :: 0 <= i < |invocationOptions.value| ==> invocationOptions.value[i] in InvocationOptions
    ensures e.thrown.Some? ==> e.calls == [] && e.thrown == Some(NullPointer)
    ensures e.thrown == None ==>
              |e.calls| == 1 && e.calls[0].Show? && e.calls[0].reportType == ReportTypes[reportType]
              && |e.calls[0].options| == |invocationOptions.value|
              && forall i :: 0 <= i < |invocationOptions.value| ==>
                   e.calls[0].options[i] == InvocationOptions[invocationOptions.value[i]]
  {
    match invocationOptions
    case None => Threw([], NullPointer)
    case Some(keys) =>
      match TranslateAll(InvocationOptions, keys)
      case Err(f) => Threw([], f)
      case Ok(options) =>
        match Get(ReportTypes, reportType)
        case Err(f) => Threw([], f)
        case Ok(t) => Done([Show(t, options)])
  }

  /** `setInvocationEvents`: the events translated in order, then one SDK call. */
  function SetInvocationEventsOf(events: seq<string>): (e: Effect<BugCall>)
    ensures e.thrown == None <==> forall i :: 0 <= i < |events| ==> events[i] in InvocationEvents
    ensures e.thrown.Some? ==> e.calls == []
    ensures e.thrown == None ==>
              |e.calls| == 1 && e.calls[0].SetInvocationEvents?
              && |e.calls[0].events| == |events|
              && forall i :: 0 <= i < |events| ==> e.calls[0].events[i] == InvocationEvents[events[i]]
  {
    match TranslateAll(InvocationEvents, events)
    case Err(f) => Threw([], f)
    case Ok(resolved) => Done([SetInvocationEvents(resolved)])
  }

  /** `setReportTypes`: the types translated in order, then one SDK call. */
  function SetReportTypesOf(types: seq<string>): (e: Effect<BugCall>)
    ensures e.thrown == None <==> forall i :: 0 <= i < |types| ==> types[i] in ReportTypes
    ensures e.thrown.Some? ==> e.calls == []
    ensures e.thrown == None ==>
              |e.calls| == 1 && e.calls[0].SetReportTypes?
              && |e.calls[0].types| == |types|
              && forall i :: 0 <= i < |types| ==> e.calls[0].types[i] == ReportTypes[types[i]]
  {
    match TranslateAll(ReportTypes, types)
    case Err(f) => Threw([], f)
    case Ok(resolved) => Done([SetReportTypes(resolved)])
  }

  /** `setInvocationOptions`: the options translated in order, then one SDK call. */
  function SetInvocationOptionsOf(options: seq<string>): (e: Effect<BugCall>)
    ensures e.thrown == None <==> forall i :: 0 <= i < |options| ==> options[i] in InvocationOptions
    ensures e.thrown.Some? ==> e.calls == []
    ensures e.thrown == None ==>
              |e.calls| == 1 && e.calls[0].SetOptions?
              && |e.calls[0].options| == |options|
              && forall i :: 0 <= i < |options| ==> e.calls[0].options[i] == InvocationOptions[options[i]]
  {
    match TranslateAll(InvocationOptions, options)
    case Err(f) => Threw([], f)
    case Ok(resolved) => Done([SetOptions(resolved)])
  }

  /** `setFloatingButtonEdge`: the edge is resolved and set first, then the
      offset, narrowed to a Java `int`. */
  function SetFloatingButtonEdgeOf(edge: string, offset: int): (e: Effect<BugCall>)
    ensures e.thrown == None <==> edge in FloatingButtonEdges
    ensures e.thrown.Some? ==> e.calls == []
    ensures e.thrown == None ==>
              |e.calls| == 2 && e.calls[0] == SetFloatingButtonEdge(FloatingButtonEdges[edge])
              && e.calls[1] == SetFloatingButtonOffset(IntValue(offset))
    ensures e.thrown == None && InIntRange(offset) ==> e.calls[1].offset == offset
  {
    match Get(FloatingButtonEdges, edge)
    case Err(f) => Threw([], f)
    case Ok(resolved) => Done([SetFloatingButtonEdge(resolved), SetFloatingButtonOffset(IntValue(offset))])
  }

  /** `setCommentMinimumCharacterCount`: a null type list becomes an empty
      array; otherwise the types are translated in order. The limit is narrowed
      to a Java `int`. */
  function SetCommentMinimumCharacterCountOf(limit: int, reportTypes: Option<seq<string>>): (e: Effect<BugCall>)
    ensures reportTypes.None? ==> e == Done([SetCommentMinimumCharacterCount(IntValue(limit), [])])
    ensures reportTypes.Some? ==>
              (e.thrown == None <==> forall i :: 0 <= i < |reportTypes.value| ==> reportTypes.value[i] in ReportTypes)
    ensures e.thrown.Some? ==> e.calls == []
    ensures e.thrown == None ==>
              |e.calls| == 1 && e.calls[0].SetCommentMinimumCharacterCount?
              && e.calls[0].limit == IntValue(limit)
    ensures e.thrown == None && InIntRange(limit) ==> e.calls[0].limit == limit
    ensures e.thrown == None && reportTypes.Some? ==>
              |e.calls[0].types| == |reportTypes.value|
              && forall i :: 0 <= i < |reportTypes.value| ==> e.calls[0].types[i] == ReportTypes[reportTypes.value[i]]
  {
    match reportTypes
    case None => Done([SetCommentMinimumCharacterCount(IntValue(limit), [])])
    case Some(keys) =>
      match TranslateAll(ReportTypes, keys)
      case Err(f) => Threw([], f)
      case Ok(resolved) => Done([SetCommentMinimumCharacterCount(IntValue(limit), resolved)])
  }

  /** `addHabibaUserConsents`: every argument, the action type included (null or
      not), reaches the SDK untranslated and unvalidated. */
  function AddHabibaUserConsents(key: string, description: string, mandatory: bool, checked: bool, actionType: Option<string>): (e: Effect<BugCall>)
    ensures e.thrown == None && |e.calls| == 1 && e.calls[0].AddUserConsent?
    ensures e.calls[0].actionType == actionType
    ensures e.calls[0].key == key && e.calls[0].description == description
    ensures e.calls[0].mandatory == mandatory && e.calls[0].checked == checked
  {
    Done([AddUserConsent(key, description, mandatory, checked, actionType)])
  }

  /** Splitting an identifier list splits its translation: a failure anywhere
      fails the whole call, and otherwise the translation of `a + b` is the
      translation of `a` followed by that of `b`. */
  lemma {:induction false} TranslateAppend<T>(m: map<string, T>, a: seq<string>, b: seq<string>)
    ensures TranslateAll(m, a + b).Ok? <==> TranslateAll(m, a).Ok? && TranslateAll(m, b).Ok?
    ensures TranslateAll(m, a + b).Ok? ==>
              TranslateAll(m, a + b).value == TranslateAll(m, a).value + TranslateAll(m, b).value
  {
    var r, ra, rb := TranslateAll(m, a + b), TranslateAll(m, a), TranslateAll(m, b);
    assert forall i :: 0 <= i < |a| ==> (a + b)[i] == a[i];
    assert forall i :: 0 <= i < |b| ==> (a + b)[|a| + i] == b[i];
    if r.Ok? {
      assert forall i :: 0 <= i < |a| ==> a[i] in m by {
        forall i | 0 <= i < |a| ensures a[i] in m {
          assert (a + b)[i] == a[i];
        }
      }
      assert forall i :: 0 <= i < |b| ==> b[i] in m by {
        forall i | 0 <= i < |b| ensures b[i] in m {
          assert (a + b)[|a| + i] == b[i];
        }
      }
      assert r.value == ra.value + rb.value;
    }
  }
}
