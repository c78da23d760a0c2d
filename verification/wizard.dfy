/** The three-step triage wizard of the Android app (MainActivity.kt): an
    immutable session, the events the screen can deliver, and the guards that
    decide which of them have any effect. Each call to the on-device model is
    two atomic events: the button press that starts it (setting the loading
    flag and fixing the prompt) and its return (writing the reply and the
    step). The model's reply is an opaque string. */
module Wizard {
  import opened Wrappers
  import opened Text

  datatype TriageStep = Initial | FollowUp | Final

  /** The choices the sex drop-down offers. */
  const SexOptions: seq<string> := ["Masculin", "Féminin", "Autre"]

  /** What a call yields when no inference engine is present. */
  const InternalError := "Erreur interne"

  const PromptQuestions := "Tu es MedGemma, expert en triage médical.\n"
    + "Génère 3-4 questions essentielles en français pour évaluer l'urgence des symptômes fournis.\n"
    + "Concentre-toi sur la distinction entre bénin et urgence vitale.\n"
    + "Format: liste à puces simple."

  const PromptFinal := "Tu es MedGemma, assistant de triage médical.\n"
    + "IMPORTANT: Si les symptômes suggèrent une urgence vitale (signes d'AVC, crise cardiaque, hémorragie grave, détresse respiratoire), dis IMMEDIATEMENT d'appeler le 15 ou le 112 sur la première ligne.\n"
    + "Pour les non-urgences, fournis:\n"
    + "1. Niveau d'urgence (Faible, Moyen, Haut).\n"
    + "2. Causes possibles (avec prudence).\n"
    + "3. Actions de soins immédiats.\n"
    + "4. Conseil sur quand consulter.\n"
    + "Réponds en français de façon concise et empathique."

  /** The report prompt is a raw string literal without trimming, so its
      continuation lines keep the 40 spaces of source indentation. */
  const Indent := "                                        "

  datatype Session = Session(
    step: TriageStep,
    age: string,
    sex: string,
    description: string,
    questions: string,
    answers: string,
    report: string,
    loading: bool)

  /** The session the screen starts with. */
  const Start := Session(Initial, "30", "Masculin", "", "", "", "", false)

  /** A call to the model that has been started and has not returned yet. */
  datatype Call = AskQuestions(prompt: string) | AskReport(prompt: string)

  /** The session together with the call in flight, if any. */
  datatype Machine = Machine(session: Session, pending: Option<Call>)

  const Launch := Machine(Start, None)

  /** The result of the speech activity: cancelled (or no data), or the
      recogniser's candidate list, best first. */
  datatype Speech = Cancelled | Recognised(results: seq<string>)

  datatype Event =
    | EditAge(age: string)
    | PickSex(option: string)
    | EditDescription(text: string)
    | EditAnswers(text: string)
    | SpeechResult(speech: Speech)
    | PressNext
    | PressBack
    | PressGenerate
    | PressReset
    | CallReturned(reply: Option<string>)

  /** The prompt of the first call: the question-generation instruction,
      then the patient line, with the description last. */
  function QuestionsPrompt(s: Session): (r: string)
    ensures |r| >= |PromptQuestions| + |s.description|
    ensures r[..|PromptQuestions|] == PromptQuestions
    ensures r[|PromptQuestions|..|r| - |s.description|]
         == "\nPatient: " + s.age + " ans, " + s.sex + ". Symptômes: "
    ensures r[|r| - |s.description|..] == s.description
  {
    var patient := "\nPatient: " + s.age + " ans, " + s.sex + ". Symptômes: ";
    var r := PromptQuestions + patient + s.description;
    assert r[..|PromptQuestions|] == PromptQuestions;
    assert r[|PromptQuestions|..|r| - |s.description|] == patient;
    r
  }

  /** The prompt of the second call: the report instruction, then a context
      block with the patient line, the initial symptoms and the answers last. */
  function ReportPrompt(s: Session): (r: string)
    ensures |r| >= |PromptFinal| + |s.answers|
    ensures r[..|PromptFinal|] == PromptFinal
    ensures r[|PromptFinal|..|r| - |s.answers|]
         == "\n" + Indent + "CONTEXTE:\n"
          + Indent + "- Patient: " + s.age + " ans, " + s.sex + "\n"
          + Indent + "- Symptômes initiaux: " + s.description + "\n"
          + Indent + "- Précisions: "
    ensures r[|r| - |s.answers|..] == s.answers
  {
    var context := "\n" + Indent + "CONTEXTE:\n"
      + Indent + "- Patient: " + s.age + " ans, " + s.sex + "\n"
      + Indent + "- Symptômes initiaux: " + s.description + "\n"
      + Indent + "- Précisions: ";
    var r := PromptFinal + context + s.answers;
    assert r[..|PromptFinal|] == PromptFinal;
    assert r[|PromptFinal|..|r| - |s.answers|] == context;
    r
  }

  /** Which events the screen can deliver in a state: only the current
      step's screen is shown, and the two request buttons are disabled while
      loading or while their text is blank. Text fields, the microphone and
      the Back button stay active while loading. */
  predicate Enabled(m: Machine, e: Event)
    ensures Enabled(m, e) && (e.PressNext? || e.PressGenerate?) ==> !m.session.loading
    ensures Enabled(m, e) && e.PressBack? ==> m.session.step == FollowUp
    ensures e.SpeechResult? ==> Enabled(m, e)
  {
    var s := m.session;
    match e
    case EditAge(_) => s.step == Initial
    case PickSex(option) => s.step == Initial && option in SexOptions
    case EditDescription(_) => s.step == Initial
    case EditAnswers(_) => s.step == FollowUp
    case SpeechResult(_) => true
    case PressNext => s.step == Initial && !s.loading && IsNotBlank(s.description)
    case PressBack => s.step == FollowUp
    case PressGenerate => s.step == FollowUp && !s.loading && IsNotBlank(s.answers)
    case PressReset => s.step == Final
    case CallReturned(_) => m.pending.Some?
  }

  /** The speech callback: the best candidate goes to the description on the
      first step and to the answers on any other step. */
  function OnSpeech(s: Session, speech: Speech): (r: Session)
    ensures r.(description := s.description, answers := s.answers) == s
    ensures s.step == Initial ==> r.answers == s.answers
    ensures s.step != Initial ==> r.description == s.description
  {
    match speech
    case Cancelled => s
    case Recognised(results) =>
      if |results| == 0 then s
      else if s.step == Initial then s.(description := results[0])
      else s.(answers := results[0])
  }

  /** The return of the call in flight: the reply (or the internal-error
      text when there is no engine) is stored and the step written, without
      looking at the step current at that moment. */
  function OnReturn(m: Machine, reply: Option<string>): (r: Machine)
    ensures r.pending.None?
    ensures m.pending.Some? ==> !r.session.loading && r.session.step != Initial
    ensures r.session.age == m.session.age && r.session.sex == m.session.sex
    ensures r.session.description == m.session.description && r.session.answers == m.session.answers
  {
    var text := reply.GetOr(InternalError);
    match m.pending
    case None => m
    case Some(AskQuestions(_)) =>
      Machine(m.session.(questions := text, step := FollowUp, loading := false), None)
    case Some(AskReport(_)) =>
      Machine(m.session.(report := text, step := Final, loading := false), None)
  }

  /** The handlers themselves, as the screen's callbacks run them. */
  function Handle(m: Machine, e: Event): (r: Machine)
    ensures !(e.PressNext? || e.PressGenerate? || e.CallReturned?) ==>
      r.pending == m.pending && r.session.loading == m.session.loading
    ensures r.session.step != m.session.step ==> e.PressBack? || e.PressReset? || e.CallReturned?
    ensures r.session.questions != m.session.questions || r.session.report != m.session.report ==> e.CallReturned?
  {
    var s := m.session;
    match e
    case EditAge(age) => m.(session := s.(age := age))
    case PickSex(option) => m.(session := s.(sex := option))
    case EditDescription(text) => m.(session := s.(description := text))
    case EditAnswers(text) => m.(session := s.(answers := text))
    case SpeechResult(speech) => m.(session := OnSpeech(s, speech))
    case PressNext =>
      if IsNotBlank(s.description)
      then Machine(s.(loading := true), Some(AskQuestions(QuestionsPrompt(s))))
      else m
    case PressBack => m.(session := s.(step := Initial))
    case PressGenerate => Machine(s.(loading := true), Some(AskReport(ReportPrompt(s))))
    case PressReset => m.(session := s.(step := Initial, description := "", answers := ""))
    case CallReturned(reply) => OnReturn(m, reply)
  }

  /** One event as the user experiences it: a disabled control does nothing. */
  function Step(m: Machine, e: Event): (r: Machine)
    ensures !Enabled(m, e) ==> r == m
    ensures Consistent(m) ==> Consistent(r)
  {
    if Enabled(m, e) then Handle(m, e) else m
  }

  function Run(m: Machine, events: seq<Event>): Machine
    decreases |events|
  {
    if events == [] then m else Run(Step(m, events[0]), events[1..])
  }

  /** The facts every reachable state satisfies: the loading flag is up
      exactly while a call is in flight, the sex is one of the offered
      choices, a questions call is only in flight on the first step, and a
      report call never while the report is shown. */
  predicate Consistent(m: Machine) {
    (m.session.loading <==> m.pending.Some?)
    && m.session.sex in SexOptions
    && (m.pending.Some? && m.pending.value.AskQuestions? ==> m.session.step == Initial)
    && (m.pending.Some? && m.pending.value.AskReport? ==> m.session.step != Final)
  }

  /** The screen opens on the first step with age 30, sex Masculin, every
      text empty and nothing loading. */
  lemma LaunchState()
    ensures Launch.session.step == Initial && Launch.pending.None?
    ensures Launch.session.age == "30" && Launch.session.sex == "Masculin"
    ensures Launch.session.description == "" && Launch.session.questions == ""
    ensures Launch.session.answers == "" && Launch.session.report == ""
    ensures !Launch.session.loading
    ensures Consistent(Launch)
  {
  }

  lemma {:induction false} RunPreservesConsistent(m: Machine, events: seq<Event>)
    requires Consistent(m)
    ensures Consistent(Run(m, events))
    decreases |events|
  {
    if events != [] {
      RunPreservesConsistent(Step(m, events[0]), events[1..]);
    }
  }

  /** Every state reachable from launch is consistent. */
  lemma ReachableConsistent(events: seq<Event>)
    ensures Consistent(Run(Launch, events))
  {
    LaunchState();
    RunPreservesConsistent(Launch, events);
  }

  /** A request button can only be pressed with no call in flight, so at
      most one call is ever pending. */
  lemma NoOverlappingCalls(m: Machine, e: Event)
    requires Consistent(m)
    requires e == PressNext || e == PressGenerate
    requires Enabled(m, e)
    ensures m.pending.None?
  {
  }

  /** "Next" has an effect exactly on the first step, when not loading and
      with a non-blank description; it then raises the loading flag and
      starts the questions call on the current session, nothing else. */
  lemma NextGuard(m: Machine)
    ensures Step(m, PressNext) != m <==>
      m.session.step == Initial && !m.session.loading && IsNotBlank(m.session.description)
    ensures Step(m, PressNext) != m ==>
      Step(m, PressNext) == Machine(m.session.(loading := true), Some(AskQuestions(QuestionsPrompt(m.session))))
  {
  }

  /** The questions call's return stores the reply whatever it says, moves
      to the follow-up step and clears the loading flag. */
  lemma QuestionsReturn(m: Machine, reply: Option<string>)
    requires Consistent(m)
    requires m.pending.Some? && m.pending.value.AskQuestions?
    ensures var n := Step(m, CallReturned(reply));
      n.session == m.session.(questions := reply.GetOr(InternalError), step := FollowUp, loading := false)
      && n.pending.None?
    ensures m.session.step == Initial
  {
  }

  /** "Generate" has an effect exactly on the follow-up step, when not
      loading and with non-blank answers. */
  lemma GenerateGuard(m: Machine)
    ensures Step(m, PressGenerate) != m <==>
      m.session.step == FollowUp && !m.session.loading && IsNotBlank(m.session.answers)
    ensures Step(m, PressGenerate) != m ==>
      Step(m, PressGenerate) == Machine(m.session.(loading := true), Some(AskReport(ReportPrompt(m.session))))
  {
  }

  /** The report call's return stores the reply and shows the report,
      whichever step the user is on when it arrives. */
  lemma ReportReturn(m: Machine, reply: Option<string>)
    requires m.pending.Some? && m.pending.value.AskReport?
    ensures var n := Step(m, CallReturned(reply));
      n.session == m.session.(report := reply.GetOr(InternalError), step := Final, loading := false)
      && n.pending.None?
  {
  }

  /** "Back" returns to the first step and touches nothing else: age, sex,
      description, answers, the loading flag and any call in flight stay. */
  lemma BackKeepsInput(m: Machine)
    requires m.session.step == FollowUp
    ensures Step(m, PressBack) == Machine(m.session.(step := Initial), m.pending)
  {
  }

  /** "Reset" returns to the first step emptying the description and the
      answers; age, sex, questions and report are kept. */
  lemma ResetClearsText(m: Machine)
    requires m.session.step == Final
    ensures Step(m, PressReset)
         == Machine(m.session.(step := Initial, description := "", answers := ""), m.pending)
  {
  }

  /** A recognised candidate list writes its first entry to the description
      on the first step and to the answers elsewhere; an empty list or a
      cancelled activity changes nothing. */
  lemma SpeechRouting(m: Machine, speech: Speech)
    ensures var n := Step(m, SpeechResult(speech));
      if speech.Cancelled? || |speech.results| == 0 then n == m
      else if m.session.step == Initial then n == m.(session := m.session.(description := speech.results[0]))
      else n == m.(session := m.session.(answers := speech.results[0]))
  {
  }

  /** How each step is entered: the follow-up step only by the questions
      call's return, the report only by the report call's return, and the
      first step only by Back or Reset. */
  lemma EntryEdges(m: Machine, e: Event)
    requires Consistent(m)
    ensures var n := Step(m, e);
      (n.session.step == FollowUp && m.session.step != FollowUp ==>
         e.CallReturned? && m.pending.Some? && m.pending.value.AskQuestions?)
      && (n.session.step == Final && m.session.step != Final ==>
         e.CallReturned? && m.pending.Some? && m.pending.value.AskReport?)
      && (n.session.step == Initial && m.session.step != Initial ==>
         e == PressBack || e == PressReset)
  {
  }

  /** The step changes the screen can make: forward through the three
      steps, Back and Reset to the first step, and, when a report call
      returns after Back, straight from the first step to the report. The
      follow-up step is never entered from the report. */
  predicate Move(from: TriageStep, to: TriageStep) {
    (from == Initial && to == FollowUp)
    || (from == FollowUp && to == Final)
    || (from == FollowUp && to == Initial)
    || (from == Final && to == Initial)
    || (from == Initial && to == Final)
  }

  lemma StepMoves(m: Machine, e: Event)
    requires Consistent(m)
    ensures Step(m, e).session.step != m.session.step ==>
      Move(m.session.step, Step(m, e).session.step)
    ensures Step(m, e).session.step == Final && m.session.step == Initial ==>
      e.CallReturned? && m.pending.Some? && m.pending.value.AskReport?
  {
  }

  /** Back does not cancel a report call: after Generate and Back the user
      sits on the first step with "Next" disabled and free to edit the
      description, and the report call's return then jumps to the report,
      built from the text as it was when Generate was pressed. */
  lemma LateReportOverridesBack(m: Machine, edit: string, reply: Option<string>)
    requires Consistent(m)
    requires m.session.step == FollowUp && !m.session.loading && IsNotBlank(m.session.answers)
    ensures var waiting := Step(Step(m, PressGenerate), PressBack);
      waiting.session.step == Initial
      && waiting.session.loading
      && Step(waiting, PressNext) == waiting
    ensures var edited := Step(Step(Step(m, PressGenerate), PressBack), EditDescription(edit));
      edited.pending == Some(AskReport(ReportPrompt(m.session)))
    ensures var done := Step(Step(Step(Step(m, PressGenerate), PressBack), EditDescription(edit)), CallReturned(reply));
      done.session.step == Final
      && done.session.description == edit
      && done.session.report == reply.GetOr(InternalError)
  {
    var call := Some(AskReport(ReportPrompt(m.session)));
    var generated := Step(m, PressGenerate);
    GenerateGuard(m);
    assert generated == Machine(m.session.(loading := true), call);
    var waiting := Step(generated, PressBack);
    assert waiting == Machine(generated.session.(step := Initial), call);
    var edited := Step(waiting, EditDescription(edit));
    assert edited == Machine(waiting.session.(description := edit), call);
    ReportReturn(edited, reply);
  }
}
