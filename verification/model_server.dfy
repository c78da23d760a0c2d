/** The self-hosted Flask server of kaggle_server_script.py: the Gemma chat
    template wrapped around an incoming request, the rule that cuts the
    model's reply out of the decoded output, and the status codes of the
    `/generate` and `/transcribe` routes. Tokenisation, generation, audio
    decoding and speech recognition are opaque calls passed in as functions. */
module ModelServer {
  import opened Wrappers
  import opened Text

  const TurnOpen := "<start_of_turn>user\n"
  const TurnClose := "<end_of_turn>\n<start_of_turn>model\n"

  /** What the decoded output is cut on: the role line of the model's turn. */
  const ModelMarker := "model\n"

  /** The body of a POST to `/generate` as `request.json` sees it: an object
      whose string fields are read with `.get(key, '')`, or something that
      makes reading it raise (no JSON content type, malformed JSON, or a
      JSON value that is not an object). */
  datatype Payload = Object(fields: map<string, string>) | Unreadable(message: string)

  /** A JSON reply `{key: value}` with its HTTP status code. */
  datatype Reply = Reply(status: int, key: string, value: string)

  /** `d.get(key, '')` on a JSON object with string values. */
  function Field(fields: map<string, string>, key: string): (r: string)
    ensures key in fields ==> r == fields[key]
    ensures key !in fields ==> r == ""
  {
    if key in fields then fields[key] else ""
  }

  /** The prompt `/generate` feeds the model: one user turn holding the
      system instruction, a blank line and the prompt, then an open model
      turn. */
  function ChatPrompt(fields: map<string, string>): (r: string)
    ensures |r| >= |TurnOpen| + |TurnClose|
    ensures r[..|TurnOpen|] == TurnOpen
    ensures r[|r| - |TurnClose|..] == TurnClose
    ensures r[|TurnOpen|..|r| - |TurnClose|]
         == Field(fields, "system_instruction") + "\n\n" + Field(fields, "prompt")
  {
    var middle := Field(fields, "system_instruction") + "\n\n" + Field(fields, "prompt");
    var r := TurnOpen + middle + TurnClose;
    assert r[..|TurnOpen|] == TurnOpen;
    assert r[|TurnOpen|..|r| - |TurnClose|] == middle;
    r
  }

  /** The marker the reply is cut on cannot overlap itself. */
  lemma MarkerBorderFree()
    ensures BorderFree(ModelMarker)
  {
    forall d | 0 < d < |ModelMarker|
      ensures ModelMarker[d..] != ModelMarker[..|ModelMarker| - d]
    {
      assert ModelMarker[d..][0] == ModelMarker[d] != 'm';
    }
  }

  /** The reply cut out of the decoded output: the text after the last
      `model\n`, with surrounding whitespace removed. */
  function ExtractReply(decoded: string): (r: string)
    ensures IsTrimmed(r)
    ensures !Contains(r, ModelMarker)
    ensures !Contains(decoded, ModelMarker) ==> r == Strip(decoded)
  {
    var parts := Split(decoded, ModelMarker);
    var tail := Last(parts);
    StripAvoids(tail, ModelMarker);
    assert Find(decoded, ModelMarker).None? ==> parts == [decoded];
    Strip(tail)
  }

  /** When the generated text `g` does not itself contain `model\n`, the
      reply is exactly `g` stripped, whatever the echoed prompt `x` holds. */
  lemma ExtractRecoversGeneration(x: string, g: string)
    requires !Contains(g, ModelMarker)
    ensures ExtractReply(x + ModelMarker + g) == Strip(g)
  {
    MarkerBorderFree();
    LastSegmentAfterFinalSeparator(x, ModelMarker, g);
  }

  /** A generation that writes `model\n` itself loses everything up to and
      including its own last `model\n`. */
  lemma GenerationMentioningMarkerIsCut(x: string, g1: string, g2: string)
    requires !Contains(g2, ModelMarker)
    ensures ExtractReply(x + ModelMarker + (g1 + ModelMarker + g2)) == Strip(g2)
  {
    var y := x + ModelMarker + g1;
    SameText(x, g1, g2, y);
    ExtractRecoversGeneration(y, g2);
  }

  /** Regrouping the concatenation around the generation's own marker. */
  lemma SameText(x: string, g1: string, g2: string, y: string)
    requires y == x + ModelMarker + g1
    ensures x + ModelMarker + (g1 + ModelMarker + g2) == y + ModelMarker + g2
  {
  }

  /** POST `/generate`. `generate` stands for tokenising the prompt, running
      the model and decoding its output; any exception on the way, reading
      the body included, becomes a 500 carrying its message. */
  function Generate(body: Payload, generate: string -> Outcome<string>): (r: Reply)
    ensures r.status == 200 || r.status == 500
    ensures r.status == 200 <==> body.Object? && generate(ChatPrompt(body.fields)).Returned?
    ensures r.status == 200 ==>
      (r.key == "response" && r.value == ExtractReply(generate(ChatPrompt(body.fields)).value))
    ensures r.status == 500 ==> r.key == "error"
    ensures body.Unreadable? ==> r.value == body.message
    ensures body.Object? && generate(ChatPrompt(body.fields)).Raised? ==>
      r.value == generate(ChatPrompt(body.fields)).message
  {
    match body
    case Unreadable(msg) => Reply(500, "error", msg)
    case Object(fields) =>
      match generate(ChatPrompt(fields))
      case Returned(decoded) => Reply(200, "response", ExtractReply(decoded))
      case Raised(msg) => Reply(500, "error", msg)
  }

  /** POST `/transcribe`. `files` are the uploaded form fields; `transcribe`
      stands for decoding the audio at 16 kHz and running the speech model.
      A missing `audio` field is refused with 400 before anything is decoded. */
  function Transcribe(files: map<string, Bytes>, transcribe: Bytes -> Outcome<string>): (r: Reply)
    ensures "audio" !in files <==> r.status == 400
    ensures "audio" !in files ==> r == Reply(400, "error", "No audio")
    ensures "audio" in files ==>
      match transcribe(files["audio"])
      case Returned(t) => r == Reply(200, "transcription", t)
      case Raised(msg) => r == Reply(500, "error", msg)
  {
    if "audio" !in files then Reply(400, "error", "No audio")
    else
      match transcribe(files["audio"])
      case Returned(t) => Reply(200, "transcription", t)
      case Raised(msg) => Reply(500, "error", msg)
  }

  /** A request without an audio field gets the same reply whatever the
      speech pipeline would have done: it is never reached. */
  lemma MissingAudioNeverDecodes(files: map<string, Bytes>, t1: Bytes -> Outcome<string>, t2: Bytes -> Outcome<string>)
    requires "audio" !in files
    ensures Transcribe(files, t1) == Transcribe(files, t2)
  {
  }
}
