# MedGemma triage front ends — a Dafny model

This project models the decision logic of the three front ends of the MedGemma
symptom-triage prototype:

- **The Android wizard** (`MainActivity.kt`). It is a three-step flow
  `INITIAL → FOLLOW_UP → FINAL` with a Back edge and a Reset edge. The model
  (`wizard.dfy`, module `Wizard`) is an immutable `Session` record
  (`step`, `age`, `sex`, `description`, `questions`, `answers`, `report`,
  `loading`). The record is paired with the model call in flight, if any.
  Every screen interaction is an `Event`. A predicate `Enabled` says which
  events the screen can deliver. A disabled control does nothing. Each call
  to the on-device model is two atomic events: the button press that starts
  it, and the `CallReturned` event that delivers the reply.
- **The Streamlit cloud page** (`streamlit_app/app.py`). The model
  (`cloud_app.dfy`, module `CloudApp`) covers API-key resolution, the
  missing-key short-circuit, turning exceptions into text, the blank-input
  guard, merging a transcription, and classifying a reply as an error by the
  substring `Erreur`. `Rerun` models one top-to-bottom script run.
- **The self-hosted Flask server** (`kaggle_server_script.py`). The model
  (`model_server.dfy`, module `ModelServer`) covers the Gemma chat-turn
  template, the reply-extraction rule, and the status codes of `/generate`
  and `/transcribe`.

Two shared modules hold the string and option primitives:

- `text.dfy` (module `Text`) models Python's `str.isspace`, `str.strip`,
  `str.find`, `in` and `str.split`, and Kotlin's `Char.isWhitespace` and
  `isBlank`.
- `wrappers.dfy` (module `Wrappers`) holds `Option` and `Outcome`.

The model calls, the speech recognisers, the audio readers and the Gemini SDK
are opaque. Each appears either as a function parameter that returns an
`Outcome` (a value, or the message of the exception it raised) or as the
payload of an event.

What the proofs establish, besides each operation's contract:

- The wizard's reachable states are `Consistent`. The loading flag is up
  exactly while a call is in flight. The sex is one of the three offered
  choices. At most one call is pending.
- The Back button stays active while loading, and a call's return writes the
  step without looking at it. So a report call can move the wizard from the
  first step straight to the report after the user has gone back
  (`Wizard.LateReportOverridesBack`, `Wizard.StepMoves`). The report is
  built from the text as it was when Generate was pressed. The model follows
  the code here and does not correct it.
- The server's extracted reply never contains `model\n` and has no
  surrounding whitespace. When the generated text itself has no `model\n`,
  the reply is exactly that text, stripped, whatever the echoed prompt holds.
- On the Streamlit page, a missing key never reaches the backend. Both
  built-in error strings are classified as errors. A key configured as the
  empty string enables the Analyze button (the check is `is not None`), yet
  the query reports the key missing (the check is `not api_key`).

Three behaviours of the code are worth stating plainly:

- The Android wizard keeps no set of symptom tags, and its age is free text.
- Reset keeps age, sex, questions and report. It empties only the
  description and the answers.
- `transcribe_audio` opens the audio file outside its `try`. So an
  unreadable recording raises an exception and does not yield `None`.
  `CloudApp.Rerun` shows that exception as a `Traceback`.

## Model

| member | source | states |
|---|---|---|
| Text.IsPySpace | kaggle_server_script.py:107 | a character is whitespace for Python's `str.strip` and `str.isspace` exactly when it is one of the Unicode whitespace characters, U+0085 included |
| Text.IsKtWhitespace | android_app/app/src/main/java/com/example/medgemma/MainActivity.kt:290 | Kotlin's whitespace, used by `isNotBlank`, is Python's whitespace without U+0085, and nothing more |
| Text.IsBlank | android_app/app/src/main/java/com/example/medgemma/MainActivity.kt:177 | `isBlank` holds for the empty string, and a blank string is all Python whitespace too |
| Text.Contains | streamlit_app/app.py:155 | Python's `pat in s`: the empty pattern is in every text |
| Text.StripStart | kaggle_server_script.py:107 | the result is a suffix of the input, everything removed is whitespace, and the result does not start with whitespace |
| Text.StripEnd | kaggle_server_script.py:107 | the result is a prefix of the input, everything removed is whitespace, and the result does not end with whitespace |
| Text.Strip | kaggle_server_script.py:107 | `str.strip()` yields a trimmed string that sits in the input with only whitespace on either side |
| Text.StripCharacterised | kaggle_server_script.py:107 | `Strip(s)` is the one and only trimmed string with whitespace margins in `s` |
| Text.StripIsBoth | kaggle_server_script.py:107 | `str.strip()` equals stripping the leading whitespace and then the trailing whitespace |
| Text.StripEmptyIffAllSpace | streamlit_app/app.py:145 | `not s.strip()` holds exactly when every character of `s` is whitespace |
| Text.FindFrom | kaggle_server_script.py:107 | the search returns the least occurrence at or after the start index, or none when there is no occurrence there |
| Text.Find | kaggle_server_script.py:107 | `str.find` returns the least index of an occurrence, and none exactly when the pattern is not `in` the text |
| Text.OccursInSlice | kaggle_server_script.py:107 | an occurrence in a slice is an occurrence in the whole text at the shifted index |
| Text.SliceAvoids | kaggle_server_script.py:107 | a slice of text that lacks a pattern also lacks it |
| Text.StripAvoids | kaggle_server_script.py:107 | stripping text that lacks a pattern leaves text that still lacks it |
| Text.Split | kaggle_server_script.py:107 | `str.split(sep)` gives at least one part, joining the parts with `sep` rebuilds the input, and no part contains `sep` |
| Text.SplitJoin | kaggle_server_script.py:107 | for a border-free separator, splitting the join of separator-free parts gives back exactly those parts, so `Split` and `Join` are inverse |
| Text.NoOverlap | kaggle_server_script.py:107 | two occurrences of a border-free separator are at least its length apart |
| Text.OverlapIsBorder | kaggle_server_script.py:107 | two overlapping occurrences of a separator exhibit a border of it |
| Text.LastSegmentAfterFinalSeparator | kaggle_server_script.py:107 | for a border-free separator, `(x + sep + g).split(sep)[-1]` is `g` whenever `g` lacks `sep` |
| ModelServer.Field | kaggle_server_script.py:104 | `data.get(key, '')` is the field's value, or the empty string when the key is missing |
| ModelServer.ChatPrompt | kaggle_server_script.py:104 | the prompt is the user-turn opener, the system instruction, a blank line, the prompt, then the turn closer that opens the model turn |
| ModelServer.MarkerBorderFree | kaggle_server_script.py:107 | occurrences of `model\n` can never overlap |
| ModelServer.ExtractReply | kaggle_server_script.py:107 | the extracted reply has no surrounding whitespace and never contains `model\n`; without a `model\n` in the decoded text it is the whole text stripped |
| ModelServer.ExtractRecoversGeneration | kaggle_server_script.py:105-107 | when the generated text lacks `model\n`, the reply is exactly that text stripped, whatever precedes the model turn |
| ModelServer.GenerationMentioningMarkerIsCut | kaggle_server_script.py:107 | a generation that writes `model\n` itself is cut after its own last `model\n` |
| ModelServer.Generate | kaggle_server_script.py:100-110 | `/generate` answers 200 with `response` exactly when the body is readable and generation returns; every failure is a 500 with the exception message under `error` |
| ModelServer.Transcribe | kaggle_server_script.py:112-125 | `/transcribe` answers 400 `No audio` exactly when the `audio` field is missing; otherwise 200 with `transcription`, or 500 with the exception message |
| ModelServer.MissingAudioNeverDecodes | kaggle_server_script.py:115 | without an audio field the reply does not depend on the speech pipeline, so nothing is decoded |
| CloudApp.GetApiKey | streamlit_app/app.py:24-28 | the secrets store's value when it holds the key; only otherwise the environment's value, which may be absent |
| CloudApp.SecretsTakePriority | streamlit_app/app.py:26-27 | with the key in the secrets store, the environment has no influence on the key |
| CloudApp.KeyUsable | streamlit_app/app.py:33 | `not api_key` is false exactly for a present, non-empty key, so a missing key and an empty key both fail |
| CloudApp.QueryGemini | streamlit_app/app.py:30-57 | without a truthy key the fixed missing-key message; otherwise the backend's text, or the exception message behind the fixed prefix; the request carries the system prompt apart from the user text |
| CloudApp.MissingKeyNeverCallsBackend | streamlit_app/app.py:32-34 | without a truthy key the result is the same for every backend, so the backend is never reached |
| CloudApp.IsErrorText | streamlit_app/app.py:155 | a reply classified as an error is at least as long as `Erreur`, and every reply that starts with `Erreur` is one |
| CloudApp.ErrorStringsAreErrors | streamlit_app/app.py:32-57 | the missing-key message and every exception message with the call-error prefix contain `Erreur` |
| CloudApp.TranscribeAudio | streamlit_app/app.py:59-68 | a recogniser failure yields `None`, a recognised text is returned as is, and a failure to read the audio escapes |
| CloudApp.InitSession | streamlit_app/app.py:113-114 | the symptom slot is set to the empty string only when absent; all other session entries are kept |
| CloudApp.InitSessionIdempotent | streamlit_app/app.py:113-114 | running the initialisation again changes nothing |
| CloudApp.MergeTranscription | streamlit_app/app.py:127-130 | the symptom slot takes the transcription only when it is neither `None` nor empty; no other entry changes |
| CloudApp.Analyze | streamlit_app/app.py:141-162 | nothing happens unless the button is pressed with a key resolved; whitespace-only text gives the fixed validation message and no query; otherwise the reply is shown as an error exactly when it contains `Erreur` |
| CloudApp.EmptyKeyReportsMissingKey | streamlit_app/app.py:78 | a key configured as the empty string enables Analyze, yet every analysis shows the missing-key error |
| CloudApp.BackendFailureShownAsError | streamlit_app/app.py:150-156 | a backend exception is always displayed as an error |
| CloudApp.Rerun | streamlit_app/app.py:112-162 | a run initialises the session, merges a recording's transcription, and shows the analysis of the area's text; it ends in a traceback exactly when reading the recording fails, and then the session is only initialised; every entry other than the symptom slot is the initialised session's |
| CloudApp.NoKeyNoAnswer | streamlit_app/app.py:141 | with no key resolved, no run shows an answer, whatever the user does |
| CloudApp.TranscriptionMerge | streamlit_app/app.py:127-130 | after a run with a readable recording, the symptom slot holds the recognised text when it is non-empty, and the previous text otherwise |
| Wizard.QuestionsPrompt | android_app/app/src/main/java/com/example/medgemma/MainActivity.kt:180 | the first prompt is the questions instruction, then `\nPatient: <age> ans, <sex>. Symptômes: `, then the description |
| Wizard.ReportPrompt | android_app/app/src/main/java/com/example/medgemma/MainActivity.kt:203-207 | the second prompt is the report instruction, then the indented context block with age, sex and description, then the answers |
| Wizard.Enabled | android_app/app/src/main/java/com/example/medgemma/MainActivity.kt:290-319 | Next and Generate can be pressed only while nothing is loading, Back only on the follow-up step, and a speech result can arrive at any time |
| Wizard.OnSpeech | android_app/app/src/main/java/com/example/medgemma/MainActivity.kt:118-126 | a recogniser result changes only the description or the answers, and never the step, age, sex, questions, report or loading flag |
| Wizard.OnReturn | android_app/app/src/main/java/com/example/medgemma/MainActivity.kt:181-213 | a call's return clears the pending call and the loading flag, leaves the first step, and keeps age, sex, description and answers |
| Wizard.Handle | android_app/app/src/main/java/com/example/medgemma/MainActivity.kt:176-225 | only the two request buttons and a call's return touch the loading flag or the pending call; only Back, Reset and a call's return change the step; only a call's return writes questions or report |
| Wizard.Step | android_app/app/src/main/java/com/example/medgemma/MainActivity.kt:165-228 | a disabled control does nothing, and every event keeps the wizard consistent |
| Wizard.LaunchState | android_app/app/src/main/java/com/example/medgemma/MainActivity.kt:64-73 | the screen opens on the first step with age `30`, sex `Masculin`, every text empty and nothing loading |
| Wizard.RunPreservesConsistent | android_app/app/src/main/java/com/example/medgemma/MainActivity.kt:165-228 | any sequence of events keeps the wizard consistent |
| Wizard.ReachableConsistent | android_app/app/src/main/java/com/example/medgemma/MainActivity.kt:64-73 | every state reachable from launch is consistent; the sex is always one of `Masculin`, `Féminin`, `Autre` |
| Wizard.NoOverlappingCalls | android_app/app/src/main/java/com/example/medgemma/MainActivity.kt:290 | a request button can be pressed only when no call is in flight |
| Wizard.NextGuard | android_app/app/src/main/java/com/example/medgemma/MainActivity.kt:176-188 | Next has an effect exactly on the first step, not loading, with a non-blank description; it then raises the loading flag and starts the questions call, changing nothing else |
| Wizard.QuestionsReturn | android_app/app/src/main/java/com/example/medgemma/MainActivity.kt:181-186 | the questions call's return stores the reply (or `Erreur interne` without an engine) whatever it says, moves to the follow-up step and clears the loading flag |
| Wizard.GenerateGuard | android_app/app/src/main/java/com/example/medgemma/MainActivity.kt:319 | Generate has an effect exactly on the follow-up step, not loading, with non-blank answers; it then raises the loading flag and starts the report call |
| Wizard.ReportReturn | android_app/app/src/main/java/com/example/medgemma/MainActivity.kt:208-213 | the report call's return stores the reply (or `Erreur interne`), shows the report and clears the loading flag, whatever the current step |
| Wizard.BackKeepsInput | android_app/app/src/main/java/com/example/medgemma/MainActivity.kt:199 | Back returns to the first step and changes nothing else, including the loading flag and any call in flight |
| Wizard.ResetClearsText | android_app/app/src/main/java/com/example/medgemma/MainActivity.kt:221-225 | Reset returns to the first step, empties description and answers, and keeps age, sex, questions and report |
| Wizard.SpeechRouting | android_app/app/src/main/java/com/example/medgemma/MainActivity.kt:118-126 | a non-empty result list writes its first entry to the description on the first step and to the answers otherwise; an empty or cancelled result changes nothing |
| Wizard.EntryEdges | android_app/app/src/main/java/com/example/medgemma/MainActivity.kt:165-228 | the follow-up step is entered only by the questions call's return, the report only by the report call's return, the first step only by Back or Reset |
| Wizard.StepMoves | android_app/app/src/main/java/com/example/medgemma/MainActivity.kt:199-213 | every step change is a forward move, Back, Reset, or a jump from the first step to the report made by a report call's return |
| Wizard.LateReportOverridesBack | android_app/app/src/main/java/com/example/medgemma/MainActivity.kt:318 | after Generate and Back the user waits on the first step with Next disabled; the report call's return then shows the report built from the text as it was at Generate, overriding Back |

## Left out

- Model loading in `MainActivity.kt` (the on-device engine, `medgemma.bin`, `modelError`) and the screen gating on it: the model assumes the wizard is on screen. A missing engine appears only as the `Erreur interne` reply.
- Jetpack Compose rendering and coroutine dispatch. The prompt is read inside the background coroutine in `MainActivity.kt`. The model fixes it when the button is pressed, so an edit between the press and the start of that coroutine is not modelled.
- An exception thrown by the on-device engine's `generateResponse`. The coroutine started with `scope.launch(Dispatchers.IO)` has no `try` and no exception handler, so the exception reaches the thread's uncaught-exception handler, which ends the app. The model treats the engine as always returning.
- The microphone permission request and the speech intent. Only the activity's result is kept, and it may arrive at any step.
- Model inference and speech recognition in every front end (MediaPipe, transformers, torch, librosa, the Gemini SDK, the Google recogniser). These are foreign calls, passed in as opaque functions.
- Generation settings (temperature, token limits, candidate count): floating-point configuration with no behaviour to prove. `CloudApp.GeminiRequest` carries key, model name, system instruction and text only.
- Streamlit widget mechanics. The text area's value is the user's edit when there is one, otherwise the session slot. Sidebar messages, spinner and timing display are left out.
- CloudApp.GetApiKey: models the secrets store as a string map. Non-string TOML values, and a secrets store that raises when no secrets file exists, are not modelled.
- CloudApp.QueryGemini: models the SDK's reply text as a string. A reply whose `text` is `None` is not modelled.
- ModelServer.Generate: models the JSON body's fields as strings. Other JSON values, which the f-string formats with `str()`, are not modelled.
- The notebook bootstrap of `kaggle_server_script.py` (package installation, import patches, model loading, ngrok, `app.run`) and its `/` liveness route. This is environment plumbing.
- Whitespace follows the Unicode tables of current Python and JVM releases. Characters whose category changed between Unicode versions are not tracked.
- `prompt_engineering.py` and `check_models.py` are not part of this model. They are an experiment harness and a diagnostic script.
