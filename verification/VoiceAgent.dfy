/**
 HotelVoiceAgentService: reading the service request out of a reply, cleaning the reply for speech, and
 one turn of the pipeline. The model, the transcription and the speech service are parameters that say
 what they answer; JSON parsing is a parameter too.
 */
module VoiceAgent {
  import opened Common
  import opened PyStrings
  import opened Tags
  import opened Conversation

  /** A parsed JSON value as the code tells them apart: hashable or not, and which string. */
  datatype Json = Text(s: string) | Scalar | Container

  datatype Parsed = Malformed | NotObject | Object(fields: map<string, Json>)

  /** Raised: an exception that the extractor does not catch. */
  datatype Extraction = NoRequest | Request(fields: map<string, Json>) | Raised

  const VALID_SERVICE_TYPES: set<string> := {
    "room_service", "housekeeping", "maintenance", "concierge",
    "wake_up_call", "transport", "spa", "dining", "laundry", "other"
  }

  const TTS_LIMIT := 4096

  const SERVICE_TYPE := "service_type"

  function Validate(parsed: Parsed): Extraction {
    match parsed
    case Malformed => NoRequest
    case NotObject => Raised
    case Object(fields) =>
      if SERVICE_TYPE !in fields || fields[SERVICE_TYPE].Scalar? then Request(fields[SERVICE_TYPE := Text("other")])
      else if fields[SERVICE_TYPE].Container? then Raised
      else if fields[SERVICE_TYPE].s !in VALID_SERVICE_TYPES then Request(fields[SERVICE_TYPE := Text("other")])
      else Request(fields)
  }

  /** _extract_service_request */
  function Extract(parse: string -> Parsed, text: string): Extraction {
    var found := Search(text);
    if found.None? then NoRequest
    else
      SearchFinds(text);
      Validate(parse(Strip(Payload(text, found.value))))
  }

  /** _clean_for_tts */
  function CleanForTts(text: string): string {
    Strip(RemoveBlocks(text))
  }

  /** A known service type, as a string. */
  predicate NamesServiceType(fields: map<string, Json>) {
    SERVICE_TYPE in fields && fields[SERVICE_TYPE].Text? && fields[SERVICE_TYPE].s in VALID_SERVICE_TYPES
  }

  predicate HasUnhashableType(parsed: Parsed) {
    parsed.Object? && SERVICE_TYPE in parsed.fields && parsed.fields[SERVICE_TYPE].Container?
  }

  /**
   What becomes of a reply. Without a block, or if the block is no JSON, there is no request; JSON that is no
   object, or an unhashable service type, raises; otherwise the request is what was parsed if that names a known
   service type, and with "other" as its type if it does not.
   */
  lemma ExtractionOutcome(parse: string -> Parsed, text: string)
    ensures !HasBlock(text) ==> Extract(parse, text) == NoRequest
    ensures HasBlock(text) ==>
              && Search(text).Some? && IsMatch(text, Search(text).value)
              && var parsed, result := parse(Strip(Payload(text, Search(text).value))), Extract(parse, text);
                 && (result.NoRequest? <==> parsed.Malformed?)
                 && (result.Raised? <==> parsed.NotObject? || HasUnhashableType(parsed))
                 && (result.Request? ==>
                       && parsed.Object? && NamesServiceType(result.fields)
                       && result.fields - {SERVICE_TYPE} == parsed.fields - {SERVICE_TYPE}
                       && (NamesServiceType(parsed.fields) ==> result.fields == parsed.fields)
                       && (!NamesServiceType(parsed.fields) ==> result.fields["service_type"] == Text("other")))
  {
    SearchIsLeftmostNonGreedy(text, Match(0, 0));
    SearchFinds(text);
    assert "other" in VALID_SERVICE_TYPES;
  }

  /**
   The tag round trip. A reply written as prose, one block and a tail gives back the payload, stripped, to
   the JSON parser and prose and tail, joined, to the speech service.
   */
  lemma TagRoundTrip(parse: string -> Parsed, prose: string, payload: string, rest: string)
    requires !Contains(prose, OPEN) && !Contains(payload, CLOSE) && !HasBlock(rest)
    ensures var text := prose + OPEN + payload + CLOSE + rest;
            && Extract(parse, text) == Validate(parse(Strip(payload)))
            && CleanForTts(text) == Strip(prose + rest)
  {
    SearchRoundTrip(prose, payload, rest);
    RemoveBlocksOfSplit(Block(prose, payload, Tail(rest)));
  }

  /** The same for a reply of any number of blocks: the first payload, and all the gaps. */
  lemma ReplyOfSplit(parse: string -> Parsed, s: Split)
    requires ValidSplit(s)
    ensures CleanForTts(Rebuild(s)) == Strip(Gaps(s))
    ensures Extract(parse, Rebuild(s)) == if s.Block? then Validate(parse(Strip(s.payload))) else NoRequest
  {
    RemoveBlocksOfSplit(s);
    SplitUnique(s);
    SearchFinds(Rebuild(s));
  }

  /**
   For any reply, the extractor has a payload exactly when the cleaner removes something, and the payload is
   the inside of the first block that is removed.
   */
  lemma ExtractorMeetsCleaner(text: string)
    ensures Search(text).Some? <==> RemoveBlocks(text) != text
    ensures Search(text).Some? <==> HasBlock(text)
    ensures Search(text).Some? ==>
              && IsMatch(text, Search(text).value)
              && SplitOf(text).Block? && SplitOf(text).payload == Payload(text, Search(text).value)
  {
    RemoveBlocksShortens(text);
    SearchIsLeftmostNonGreedy(text, Match(0, 0));
    SearchFinds(text);
  }

  // ---------------------------------------------------------------------------------------------
  // One turn.

  datatype Completion = Completion(text: string, tokens: nat)

  datatype Response = Response(
    text: string,
    hasAudio: bool,
    serviceRequest: Extraction,
    tokensUsed: nat,
    ttsChars: nat)

  /** The guest's words: the text if there is any, otherwise the transcription. */
  function Input(textInput: Option<string>, transcription: Option<string>): Option<string> {
    var input := if textInput.Some? && textInput.value != [] then textInput else transcription;
    if input.Some? && input.value != [] then input else None
  }

  /** What the model answers, if there is anything to answer to. */
  function Reply(
    system: string, transcription: Option<string>, textInput: Option<string>, history: seq<Message>,
    completion: seq<Message> -> Option<Completion>)
    : Option<Completion>
  {
    var input := Input(textInput, transcription);
    if input.None? then None else completion(Prompt(system, history, input.value))
  }

  /**
   The model is asked with the guest's words, the text if there is any and otherwise the transcription, after the
   last ten messages of the history.
   */
  lemma TurnAsks(
    system: string, transcription: Option<string>, textInput: Option<string>, history: seq<Message>,
    completion: seq<Message> -> Option<Completion>, said: string, messages: seq<Message>)
    requires said != []
    requires textInput == Some(said) || (textInput in {None, Some([])} && transcription == Some(said))
    requires Sends(messages, system, history, said)
    ensures Reply(system, transcription, textInput, history, completion) == completion(messages)
  {
    PromptContents(messages, system, history, said);
  }

  /** What a turn comes to: the cleaned reply, its request and its costs, or None for any exception. */
  function TurnResult(
    parse: string -> Parsed, system: string, transcription: Option<string>, textInput: Option<string>,
    history: seq<Message>, completion: seq<Message> -> Option<Completion>, speechWorks: bool, generateAudio: bool)
    : Option<Response>
  {
    var reply := Reply(system, transcription, textInput, history, completion);
    if reply.None? || Extract(parse, reply.value.text).Raised? then None
    else
      var spoken := generateAudio && CleanForTts(reply.value.text) != [];
      if spoken && !speechWorks then None
      else
        Some(Response(CleanForTts(reply.value.text), spoken, Extract(parse, reply.value.text), reply.value.tokens,
                      if spoken then |CleanForTts(reply.value.text)| else 0))
  }

  /** The extractor raises on this reply: the payload is JSON, but no object or one with an unhashable type. */
  ghost predicate ExtractionRaises(parse: string -> Parsed, text: string) {
    && Search(text).Some? && IsMatch(text, Search(text).value)
    && var parsed := parse(Strip(Payload(text, Search(text).value)));
       parsed.NotObject? || HasUnhashableType(parsed)
  }

  /** What of a text is handed to the speech service. */
  function Synthesized(text: string): string {
    if |text| <= TTS_LIMIT then text else text[..TTS_LIMIT]
  }

  /** Something is left to say once the blocks are gone. */
  ghost predicate HasWords(text: string) {
    !AllSpace(RemoveBlocks(text))
  }

  lemma ReplyHasWords(parse: string -> Parsed, text: string)
    ensures CleanForTts(text) != [] <==> HasWords(text)
    ensures |CleanForTts(text)| <= |text|
    ensures Extract(parse, text).Raised? <==> ExtractionRaises(parse, text)
  {
    ExtractionOutcome(parse, text);
    SearchIsLeftmostNonGreedy(text, Match(0, 0));
    StripEmptyIff(RemoveBlocks(text));
    RemoveBlocksShortens(text);
  }

  /**
   A turn fails exactly when neither text nor transcription says anything, the model does not answer, the extractor
   raises, or speech is wanted for a reply that has words and the speech service fails.
   */
  lemma TurnFailsIff(
    parse: string -> Parsed, system: string, transcription: Option<string>, textInput: Option<string>,
    history: seq<Message>, completion: seq<Message> -> Option<Completion>, speechWorks: bool, generateAudio: bool)
    ensures var reply := Reply(system, transcription, textInput, history, completion);
            TurnResult(parse, system, transcription, textInput, history, completion, speechWorks, generateAudio).None?
            <==> || (textInput in {None, Some([])} && transcription in {None, Some([])})
                 || reply.None?
                 || ExtractionRaises(parse, reply.value.text)
                 || (generateAudio && HasWords(reply.value.text) && !speechWorks)
  {
    var reply := Reply(system, transcription, textInput, history, completion);
    if reply.Some? {
      ReplyHasWords(parse, reply.value.text);
    }
  }

  /**
   A turn that works costs the tokens of the completion and, exactly when there is audio, one unit for each
   character of the cleaned reply: just what is synthesized if that is at most 4096, and more otherwise. Audio is
   there exactly when it is wanted and the reply has words; without it the turn gives the same text and request,
   which are the cleaned reply and what the extractor finds in the reply itself.
   */
  lemma TurnCosts(
    parse: string -> Parsed, system: string, transcription: Option<string>, textInput: Option<string>,
    history: seq<Message>, completion: seq<Message> -> Option<Completion>, speechWorks: bool, generateAudio: bool)
    ensures var reply := Reply(system, transcription, textInput, history, completion);
            var r := TurnResult(parse, system, transcription, textInput, history, completion, speechWorks, generateAudio);
            var silent := TurnResult(parse, system, transcription, textInput, history, completion, false, false);
            r.Some? ==>
              && reply.Some? && r.value.tokensUsed == reply.value.tokens
              && r.value.text == CleanForTts(reply.value.text)
              && r.value.serviceRequest == Extract(parse, reply.value.text)
              && (r.value.hasAudio <==> generateAudio && HasWords(reply.value.text))
              && (r.value.hasAudio <==> r.value.ttsChars > 0)
              && (r.value.hasAudio ==>
                    && r.value.ttsChars == |r.value.text| <= |reply.value.text|
                    && (r.value.ttsChars == |Synthesized(r.value.text)| <==> |r.value.text| <= 4096))
              && silent == Some(r.value.(hasAudio := false, ttsChars := 0))
  {
    var reply := Reply(system, transcription, textInput, history, completion);
    if reply.Some? {
      ReplyHasWords(parse, reply.value.text);
    }
  }

  /** process_voice_turn */
  method ProcessVoiceTurn(
    parse: string -> Parsed,
    system: string,
    transcription: Option<string>,       // what Whisper answers, if there is audio and it answers
    textInput: Option<string>,
    history: seq<Message>,
    completion: seq<Message> -> Option<Completion>,
    speechWorks: bool,
    generateAudio: bool)
    returns (r: Option<Response>)
    ensures r == TurnResult(parse, system, transcription, textInput, history, completion, speechWorks, generateAudio)
  {
    var input := textInput;
    if input.None? || input.value == [] {
      input := transcription;
    }
    if input.None? || input.value == [] {
      return None;
    }
    var messages := BuildMessages(system, history, input.value);
    var reply := completion(messages);
    if reply.None? {
      return None;
    }
    var request := Extract(parse, reply.value.text);
    if request.Raised? {
      return None;
    }
    var response := Response(CleanForTts(reply.value.text), false, request, reply.value.tokens, 0);
    if generateAudio && response.text != [] {
      if !speechWorks {
        return None;
      }
      response := response.(hasAudio := true, ttsChars := |response.text|);
    }
    return Some(response);
  }
}
