/** The Streamlit front end of streamlit_app/app.py, as the decisions one
    script run makes: where the API key comes from, when the Gemini call is
    skipped, how its exceptions become text, when a transcription replaces the
    symptom text, and how the answer is classified for display. The Gemini
    SDK, the audio file reader and the speech recogniser are opaque calls
    passed in as functions. */
module CloudApp {
  import opened Wrappers
  import opened Text

  const ModelName := "gemini-1.5-flash"
  const KeyName := "GEMINI_API_KEY"

  const SystemPrompt := "You are MedGemma, a helpful medical triage assistant.\n"
    + "CRITICAL: If symptoms suggest a life-threatening emergency (heart attack, stroke, severe bleeding, difficulty breathing), IMMEDIATELY tell the user to call emergency services (911/112).\n"
    + "For non-emergencies:\n"
    + "1. Analyze the symptoms provided.\n"
    + "2. Estimate urgency (Low, Medium, High).\n"
    + "3. Suggest immediate home care actions.\n"
    + "4. Always advise seeing a doctor.\n"
    + "Keep responses concise, structured, and empathetic."

  /** The substring the page uses to tell an error from an answer. */
  const ErrorMarker := "Erreur"

  const MissingKeyMessage := ErrorMarker + " : Clé API manquante. Veuillez configurer .streamlit/secrets.toml."
  const CallErrorPrefix := ErrorMarker + " lors de l'appel à Gemini API : "
  const EmptyInputMessage := "Veuillez entrer une description des symptômes."

  /** Session-state slot holding the symptom text. */
  const SymptomsSlot := "symptoms_input"

  /** Where an API key may be configured: the secrets store and the
      process environment. */
  datatype Config = Config(secrets: map<string, string>, env: map<string, string>)

  /** `get_api_key`: the secrets store wins; only when it lacks the key is
      the environment consulted, and that may yield nothing. */
  function GetApiKey(c: Config): (r: Option<string>)
    ensures KeyName in c.secrets ==> r == Some(c.secrets[KeyName])
    ensures KeyName !in c.secrets ==> (r.Some? <==> KeyName in c.env)
    ensures KeyName !in c.secrets && r.Some? ==> r.value == c.env[KeyName]
  {
    if KeyName in c.secrets then Some(c.secrets[KeyName])
    else if KeyName in c.env then Some(c.env[KeyName])
    else None
  }

  /** A key in the secrets store makes the environment irrelevant. */
  lemma SecretsTakePriority(secrets: map<string, string>, env1: map<string, string>, env2: map<string, string>)
    requires KeyName in secrets
    ensures GetApiKey(Config(secrets, env1)) == GetApiKey(Config(secrets, env2))
  {
  }

  /** Python truthiness of the key: `None` and `""` are both false, every
      other string is true. */
  predicate KeyUsable(key: Option<string>)
    ensures key.None? ==> !KeyUsable(key)
    ensures KeyUsable(key) <==> key.Some? && |key.value| > 0
  {
    key.Some? && key.value != ""
  }

  /** One `generate_content` call: the key, the model, the system
      instruction on its own channel and the user's text, unchanged. */
  datatype GeminiRequest = GeminiRequest(apiKey: string, model: string, systemInstruction: string, contents: string)

  /** `query_gemini`: without a usable key the fixed message, without any
      call; otherwise the SDK's text, or the exception's message behind a
      fixed prefix. */
  function QueryGemini(c: Config, prompt: string, gemini: GeminiRequest -> Outcome<string>): (r: string)
    ensures !KeyUsable(GetApiKey(c)) ==> r == MissingKeyMessage
    ensures KeyUsable(GetApiKey(c)) ==>
      match gemini(GeminiRequest(GetApiKey(c).value, ModelName, SystemPrompt, prompt))
      case Returned(text) => r == text
      case Raised(msg) => r == CallErrorPrefix + msg
  {
    var key := GetApiKey(c);
    if !KeyUsable(key) then MissingKeyMessage
    else
      match gemini(GeminiRequest(key.value, ModelName, SystemPrompt, prompt))
      case Returned(text) => text
      case Raised(msg) => CallErrorPrefix + msg
  }

  /** Without a usable key the answer does not depend on the backend: the
      backend is never reached. */
  lemma MissingKeyNeverCallsBackend(c: Config, prompt: string, g1: GeminiRequest -> Outcome<string>, g2: GeminiRequest -> Outcome<string>)
    requires !KeyUsable(GetApiKey(c))
    ensures QueryGemini(c, prompt, g1) == QueryGemini(c, prompt, g2) == MissingKeyMessage
  {
  }

  /** `"Erreur" in response`: any text starting with the marker counts, and
      so does any text the marker occurs in. */
  predicate IsErrorText(response: string)
    ensures IsErrorText(response) ==> |response| >= |ErrorMarker|
    ensures |response| >= |ErrorMarker| && response[..|ErrorMarker|] == ErrorMarker ==> IsErrorText(response)
  {
    assert |response| >= |ErrorMarker| && response[..|ErrorMarker|] == ErrorMarker
      ==> OccursAt(response, ErrorMarker, 0);
    Contains(response, ErrorMarker)
  }

  /** Both error strings `query_gemini` produces are classified as errors,
      whatever the exception's message. */
  lemma ErrorStringsAreErrors(msg: string)
    ensures IsErrorText(MissingKeyMessage)
    ensures IsErrorText(CallErrorPrefix + msg)
  {
    assert MissingKeyMessage[..|ErrorMarker|] == ErrorMarker;
    assert CallErrorPrefix + msg == ErrorMarker + (CallErrorPrefix[|ErrorMarker|..] + msg);
    assert (CallErrorPrefix + msg)[..|ErrorMarker|] == ErrorMarker;
  }

  /** `transcribe_audio`. `read` stands for opening the recording with
      `sr.AudioFile` and recording it, which happens OUTSIDE the `try`, so
      its failure escapes; `recognise` is the Google recogniser, any failure
      of which the bare `except` turns into `None`. */
  function TranscribeAudio(audio: Bytes, read: Bytes -> Outcome<Bytes>, recognise: Bytes -> Outcome<string>): (r: Outcome<Option<string>>)
    ensures read(audio).Raised? ==> r == Raised(read(audio).message)
    ensures read(audio).Returned? ==> r.Returned?
    ensures read(audio).Returned? ==>
      (r.value.None? <==> recognise(read(audio).value).Raised?)
    ensures read(audio).Returned? && recognise(read(audio).value).Returned? ==>
      r.value == Some(recognise(read(audio).value).value)
  {
    match read(audio)
    case Raised(msg) => Raised(msg)
    case Returned(data) =>
      match recognise(data)
      case Returned(text) => Returned(Some(text))
      case Raised(_) => Returned(None)
  }

  /** `st.session_state` restricted to string values. */
  type SessionState = map<string, string>

  /** The script's start-up initialisation: the symptom slot is set to the
      empty string only when absent. */
  function InitSession(state: SessionState): (r: SessionState)
    ensures SymptomsSlot in r
    ensures SymptomsSlot in state ==> r == state
    ensures SymptomsSlot !in state ==> r[SymptomsSlot] == ""
    ensures forall k :: k in state ==> k in r && r[k] == state[k]
    ensures r.Keys == state.Keys + {SymptomsSlot}
  {
    if SymptomsSlot in state then state else state[SymptomsSlot := ""]
  }

  /** Re-running the initialisation changes nothing. */
  lemma InitSessionIdempotent(state: SessionState)
    ensures InitSession(InitSession(state)) == InitSession(state)
  {
  }

  /** The symptom slot takes a transcription only when it is truthy: neither
      `None` nor empty. */
  function MergeTranscription(state: SessionState, transcribed: Option<string>): (r: SessionState)
    requires SymptomsSlot in state
    ensures SymptomsSlot in r
    ensures r[SymptomsSlot] == if transcribed.Some? && transcribed.value != ""
      then transcribed.value else state[SymptomsSlot]
    ensures forall k :: k != SymptomsSlot ==> (k in r <==> k in state)
    ensures forall k :: k in state && k != SymptomsSlot ==> r[k] == state[k]
  {
    if transcribed.Some? && transcribed.value != "" then state[SymptomsSlot := transcribed.value]
    else state
  }

  /** What a run leaves on the page below the input area. `Traceback` is an
      exception that escaped the script. */
  datatype Shown =
    | Idle
    | EmptyInput(message: string)
    | ErrorBox(text: string)
    | ReportBox(text: string)
    | Traceback(message: string)

  /** The analyze logic: the button is disabled when no key resolves; a
      whitespace-only text is refused before any query; otherwise the answer
      is shown as an error exactly when it contains `Erreur`. */
  function Analyze(c: Config, pressed: bool, symptoms: string, gemini: GeminiRequest -> Outcome<string>): (r: Shown)
    ensures !r.Traceback?
    ensures r.Idle? <==> !pressed || GetApiKey(c).None?
    ensures r.EmptyInput? <==> pressed && GetApiKey(c).Some? && AllPySpace(symptoms)
    ensures r.EmptyInput? ==> r.message == EmptyInputMessage
    ensures r.ErrorBox? || r.ReportBox? ==> r.text == QueryGemini(c, symptoms, gemini)
    ensures r.ErrorBox? ==> IsErrorText(r.text)
    ensures r.ReportBox? ==> !IsErrorText(r.text)
  {
    StripEmptyIffAllSpace(symptoms);
    if !(pressed && GetApiKey(c).Some?) then Idle
    else if Strip(symptoms) == [] then EmptyInput(EmptyInputMessage)
    else
      var response := QueryGemini(c, symptoms, gemini);
      if IsErrorText(response) then ErrorBox(response) else ReportBox(response)
  }

  /** A key configured as the empty string enables the button (it is not
      `None`) yet every query reports the key missing. */
  lemma EmptyKeyReportsMissingKey(c: Config, symptoms: string, gemini: GeminiRequest -> Outcome<string>)
    requires GetApiKey(c) == Some("")
    requires !AllPySpace(symptoms)
    ensures Analyze(c, true, symptoms, gemini) == ErrorBox(MissingKeyMessage)
  {
    ErrorStringsAreErrors("");
  }

  /** A failing backend call is always displayed as an error. */
  lemma BackendFailureShownAsError(c: Config, symptoms: string, gemini: GeminiRequest -> Outcome<string>)
    requires KeyUsable(GetApiKey(c))
    requires !AllPySpace(symptoms)
    requires gemini(GeminiRequest(GetApiKey(c).value, ModelName, SystemPrompt, symptoms)).Raised?
    ensures Analyze(c, true, symptoms, gemini).ErrorBox?
  {
    ErrorStringsAreErrors(gemini(GeminiRequest(GetApiKey(c).value, ModelName, SystemPrompt, symptoms)).message);
  }

  /** What the user does during one run: the recording `mic_recorder`
      returned (if any), the text area's content if the user has edited it,
      and whether the Analyze button was clicked. */
  datatype Interaction = Interaction(recording: Option<Bytes>, typed: Option<string>, pressed: bool)

  /** The opaque collaborators of a run. */
  datatype Services = Services(
    config: Config,
    read: Bytes -> Outcome<Bytes>,
    recognise: Bytes -> Outcome<string>,
    gemini: GeminiRequest -> Outcome<string>)

  datatype Rendered = Rendered(state: SessionState, shown: Shown)

  /** The text area's value: the user's edit when there is one, otherwise
      the value the script passes in from the session slot. */
  function AreaText(state: SessionState, typed: Option<string>): string
    requires SymptomsSlot in state
  {
    typed.GetOr(state[SymptomsSlot])
  }

  /** One top-to-bottom run of the script. */
  function Rerun(state: SessionState, ui: Interaction, svc: Services): (r: Rendered)
    ensures SymptomsSlot in r.state
    ensures ui.recording.None? || r.shown.Traceback? ==> r.state == InitSession(state)
    ensures forall k :: k != SymptomsSlot ==> (k in r.state <==> k in InitSession(state))
    ensures forall k :: k != SymptomsSlot && k in r.state ==> r.state[k] == InitSession(state)[k]
    ensures r.shown.Traceback? <==>
      ui.recording.Some? && svc.read(ui.recording.value).Raised?
    ensures !r.shown.Traceback? ==>
      r.shown == Analyze(svc.config, ui.pressed, AreaText(r.state, ui.typed), svc.gemini)
  {
    var s1 := InitSession(state);
    if ui.recording.None? then
      Rendered(s1, Analyze(svc.config, ui.pressed, AreaText(s1, ui.typed), svc.gemini))
    else
      match TranscribeAudio(ui.recording.value, svc.read, svc.recognise)
      case Raised(msg) => Rendered(s1, Traceback(msg))
      case Returned(transcribed) =>
        var s2 := MergeTranscription(s1, transcribed);
        Rendered(s2, Analyze(svc.config, ui.pressed, AreaText(s2, ui.typed), svc.gemini))
  }

  /** With no key resolving, no run ever reaches the backend or shows an
      answer, whatever the user does. */
  lemma NoKeyNoAnswer(state: SessionState, ui: Interaction, svc: Services)
    requires GetApiKey(svc.config).None?
    ensures Rerun(state, ui, svc).shown.Idle? || Rerun(state, ui, svc).shown.Traceback?
  {
  }

  /** A recognised, non-empty transcription replaces the symptom text, and
      a failed recognition keeps what was there. */
  lemma TranscriptionMerge(state: SessionState, ui: Interaction, svc: Services)
    requires ui.recording.Some? && svc.read(ui.recording.value).Returned?
    ensures var heard := svc.recognise(svc.read(ui.recording.value).value);
      Rerun(state, ui, svc).state[SymptomsSlot] ==
        if heard.Returned? && heard.value != "" then heard.value
        else InitSession(state)[SymptomsSlot]
  {
  }
}
