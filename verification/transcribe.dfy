/**
 * Speech-to-text dispatch of stt/transcribe.py. The audio conversion, the offline decoder
 * (faster-whisper) and the online transcription endpoint are oracles; what is modelled is
 * the language argument, the engine choice, the "gibberish" test that triggers the online
 * fallback, the retry with "whisper-1", and how the two results are combined.
 */
module Transcribe {
  import opened Wrappers
  import opened Text

  /** The model the online call retries with when the first call raises. */
  const RetryModel: string := "whisper-1"

  /** What one call of the online endpoint does: raise, or answer with an optional `text`. */
  datatype SttReply = Raised | Answered(text: Option<string>)

  /** The online endpoint, called with a model name and the language argument. */
  type Api = (string, Option<string>) -> SttReply

  /** What the offline decoder does: fail to import, or yield the segments' optional texts. */
  datatype OfflineReply = Unavailable | Decoded(segments: seq<Option<string>>)

  /** The `(text, duration_seconds)` pair `transcribe_file` returns. */
  datatype Transcript = Transcript(text: string, seconds: real)

  /** The `RuntimeError`s the module raises, and the online retry raising in turn. */
  datatype SttError = NoClient | OfflineUnavailable | OnlineFailed

  // ------------------------------------------------------------------ language argument

  /** `None if language is None or language.lower() == "auto" else language.lower()`. */
  function LangArg(language: Option<string>): (l: Option<string>)
    ensures l.None? <==> language.None? || Lower(language.value) == "auto"
    ensures l.Some? ==> l.value == Lower(language.value) && AllLower(l.value)
  {
    if language.None? || Lower(language.value) == "auto" then None else Some(Lower(language.value))
  }

  /** Normalising an already normalised language changes nothing. */
  lemma LangArgIdempotent(language: Option<string>)
    ensures LangArg(if LangArg(language).None? then None else Some(LangArg(language).value)) == LangArg(language)
  {
    if LangArg(language).Some? {
      var l := LangArg(language).value;
      assert Lower(l) == l;
    }
  }

  /** "auto" in any case means detection; any other code is lower-cased. */
  lemma LangArgCases()
    ensures LangArg(Some("AUTO")) == None && LangArg(Some("Auto")) == None
    ensures LangArg(Some("RO")) == Some("ro")
  {
    assert Lower("AUTO") == "auto";
    assert Lower("Auto") == "auto";
    assert Lower("RO") == "ro";
  }

  // ------------------------------------------------------------------ offline text

  /** `(seg.text or "")` for every segment. */
  function SegmentTexts(segments: seq<Option<string>>): (ts: seq<string>)
    ensures |ts| == |segments|
    ensures forall i :: 0 <= i < |segments| ==> ts[i] == segments[i].GetOr("")
  {
    seq(|segments|, i requires 0 <= i < |segments| => segments[i].GetOr(""))
  }

  /** The offline text: the stripped, non-empty segment texts joined by single spaces, then
      stripped once more. The final strip never changes anything, and the text is empty
      exactly when every segment is blank. */
  function OfflineText(segments: seq<Option<string>>): (t: string)
    ensures t == Join(" ", StrippedNonEmpty(SegmentTexts(segments)))
    ensures NoEdgeSpace(t)
    ensures t == "" <==> forall i :: 0 <= i < |segments| ==> AllSpace(segments[i].GetOr(""))
  {
    var parts := StrippedNonEmpty(SegmentTexts(segments));
    JoinEdges(parts);
    StrippedEmpty(SegmentTexts(segments));
    Strip(Join(" ", parts))
  }

  /** Joining non-empty, unpadded parts with a space leaves no edge whitespace, and is
      empty only for no parts. */
  lemma {:induction false} JoinEdges(parts: seq<string>)
    requires forall i :: 0 <= i < |parts| ==> parts[i] != "" && NoEdgeSpace(parts[i])
    ensures NoEdgeSpace(Join(" ", parts))
    ensures Join(" ", parts) == "" <==> parts == []
  {
    if |parts| > 1 {
      var rest := Join(" ", parts[1..]);
      JoinEdges(parts[1..]);
      var j := parts[0] + " " + rest;
      assert Join(" ", parts) == j;
      assert j[0] == parts[0][0];
      assert j[|j| - 1] == rest[|rest| - 1];
    }
  }

  /** Nothing survives stripping exactly when every piece is whitespace. */
  lemma {:induction false} StrippedEmpty(ps: seq<string>)
    ensures StrippedNonEmpty(ps) == [] <==> forall i :: 0 <= i < |ps| ==> AllSpace(ps[i])
  {
    if ps != [] {
      StrippedEmpty(ps[1..]);
      assert forall i :: 1 <= i < |ps| ==> ps[i] == ps[1..][i - 1];
    }
  }

  // ------------------------------------------------------------------ online call

  /** `_online_openai_transcribe`: the requested model, and on a raise one retry with
      "whisper-1" whose own raise propagates; the text is `(resp.text or "").strip()`. Both
      engines measure the same converted file, whose length is `seconds`. */
  function Online(api: Api, model: string, lang: Option<string>, seconds: real): (r: Result<Transcript, SttError>)
    ensures r.Success? <==> api(model, lang).Answered? || api(RetryModel, lang).Answered?
    ensures api(model, lang).Answered? ==> r == Success(Transcript(Strip(api(model, lang).text.GetOr("")), seconds))
    ensures api(model, lang).Raised? && api(RetryModel, lang).Answered? ==>
      r == Success(Transcript(Strip(api(RetryModel, lang).text.GetOr("")), seconds))
    ensures r.Success? ==> NoEdgeSpace(r.value.text)
  {
    var reply := if api(model, lang).Answered? then api(model, lang) else api(RetryModel, lang);
    if reply.Raised? then Failure(OnlineFailed)
    else Success(Transcript(Strip(reply.text.GetOr("")), seconds))
  }

  // ------------------------------------------------------------------ dispatch

  /** The "gibberish" test: no text, or at most two words. */
  predicate Bad(text: string) {
    text == "" || |Split(text)| <= 2
  }

  /** The emptiness test is subsumed by the word count: "" has no words. */
  lemma BadIsFewWords(text: string)
    ensures Bad(text) <==> |Split(text)| <= 2
  {
  }

  /** An engine whose lower-case name starts with "off" runs offline. */
  predicate IsOffline(engine: string) {
    StartsWith(Lower(engine), "off")
  }

  /** `transcribe_file`: the offline engine with the online fallback for a bad result when a
      client is given, or the online engine, which needs a client. */
  function TranscribeFile(
    engine: string, client: Option<Api>, model: string, language: Option<string>,
    offline: Option<string> -> OfflineReply, seconds: real): (r: Result<Transcript, SttError>)
    ensures r.Success? ==> r.value.seconds == seconds
    ensures !IsOffline(engine) && client.None? ==> r == Failure(NoClient)
    ensures !IsOffline(engine) && client.Some? ==> r == Online(client.value, model, LangArg(language), seconds)
  {
    var lang := LangArg(language);
    if IsOffline(engine) then
      match offline(lang)
      case Unavailable => Failure(OfflineUnavailable)
      case Decoded(segments) =>
        var text := OfflineText(segments);
        if Bad(text) && client.Some? then
          match Online(client.value, model, lang, seconds)
          case Failure(e) => Failure(e)
          case Success(t2) =>
            Success(Transcript(
              if t2.text != "" then t2.text else text,
              if t2.seconds != 0.0 then t2.seconds else seconds))
        else Success(Transcript(text, seconds))
    else if client.None? then Failure(NoClient)
    else Online(client.value, model, lang, seconds)
  }

  /** A good offline result, or a bad one with no client, is returned as it is: the online
      endpoint is not consulted. */
  lemma OfflineKept(
    engine: string, client: Option<Api>, model: string, language: Option<string>,
    offline: Option<string> -> OfflineReply, seconds: real)
    requires IsOffline(engine) && offline(LangArg(language)).Decoded?
    requires !Bad(OfflineText(offline(LangArg(language)).segments)) || client.None?
    ensures TranscribeFile(engine, client, model, language, offline, seconds)
         == Success(Transcript(OfflineText(offline(LangArg(language)).segments), seconds))
  {
  }

  /** A bad offline result with a client falls back online: the call fails only if the
      online call does, and the text is the online one unless that is empty. */
  lemma FallbackUsed(
    engine: string, api: Api, model: string, language: Option<string>,
    offline: Option<string> -> OfflineReply, seconds: real)
    requires IsOffline(engine) && offline(LangArg(language)).Decoded?
    requires Bad(OfflineText(offline(LangArg(language)).segments))
    ensures var r := TranscribeFile(engine, Some(api), model, language, offline, seconds);
      var on := Online(api, model, LangArg(language), seconds);
      var off := OfflineText(offline(LangArg(language)).segments);
      && (r.Success? <==> on.Success?)
      && (on.Success? ==> r.value.text == (if on.value.text != "" then on.value.text else off))
  {
  }

  /** A missing decoder is reported on the offline path, whatever the client. */
  lemma OfflineMissing(
    engine: string, client: Option<Api>, model: string, language: Option<string>,
    offline: Option<string> -> OfflineReply, seconds: real)
    requires IsOffline(engine) && offline(LangArg(language)).Unavailable?
    ensures TranscribeFile(engine, client, model, language, offline, seconds) == Failure(OfflineUnavailable)
  {
  }

  /** "OFFLINE" and "off" select the offline engine; "openai" does not. */
  lemma EngineNames()
    ensures IsOffline("OFFLINE") && IsOffline("off") && !IsOffline("openai")
  {
    assert Lower("OFFLINE") == "offline";
    assert Lower("off") == "off";
    assert Lower("openai")[..3] == "ope" != "off";
  }
}
