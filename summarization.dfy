/**
 * The transcript-acquisition logic of the summarizer page: the ordered
 * fallback chain of `extract_transcript_details`, the outcome-to-text
 * mappings of `get_captions` and `transcribe_audio`, the video-id split,
 * the error classifier applied to the result, and the prompt table.
 *
 * Each external call (the transcript service, the caption store, the audio
 * download plus speech-to-text) is an input value describing what that call
 * would return or raise; exception messages `str(e)` and caption or
 * transcription text are opaque strings. A resolution records the text
 * returned together with the external calls made, in order, so that "never
 * consulted" is a statement about the model.
 */
module Summarization {
  import opened PyText

  datatype Option<T> = None | Some(value: T)

  /* ------------------------------------------------------------------ */
  /* External outcomes                                                   */
  /* ------------------------------------------------------------------ */

  /** One entry of the transcript service's answer (a `{"text", "start", "duration"}` dict). */
  datatype Fragment = Fragment(text: string, start: real, duration: real)

  /** What `YouTubeTranscriptApi.get_transcript(video_id)` returns or raises. */
  datatype TranscriptOutcome =
    | Fragments(items: seq<Fragment>)
    | TranscriptsDisabled
    | NoTranscriptFound
    | OtherError(message: string)

  /** What the English caption track lookup and its SRT rendering give. */
  datatype CaptionOutcome =
    | Captions(srt: string)
    | NoCaptions
    | CaptionError(message: string)

  /** What downloading the audio stream and transcribing it give. */
  datatype AudioOutcome =
    | Transcribed(text: string)
    | AudioError(message: string)

  /** An external call made while resolving a transcript. */
  datatype Service =
    | TranscriptApi(videoId: string)
    | CaptionTrack(url: string, language: string)
    | AudioTranscription(url: string, model: string)

  /** The returned transcript text and the external calls made, in order. */
  datatype Resolution = Resolution(text: string, calls: seq<Service>)

  const NoCaptionsSentinel := "No captions available."
  const CaptionLanguage := "en"
  const WhisperModel := "base"
  const GenericErrorPrefix := "An error occurred: "
  const CaptionErrorPrefix := "Error fetching captions: "
  const AudioErrorPrefix := "Error transcribing audio: "
  /** `str(e)` of the IndexError raised by `[url][1]`. */
  const IndexErrorMessage := "list index out of range"

  /* ------------------------------------------------------------------ */
  /* The operations                                                      */
  /* ------------------------------------------------------------------ */

  /**
   * `url.split("=")[1]`; `None` stands for the IndexError of a one-field
   * split, which happens exactly when the URL has no `=`. An id never
   * contains `=`.
   */
  function VideoId(url: string): (id: Option<string>)
    ensures id.None? <==> '=' !in url
    ensures id.Some? ==> '=' !in id.value
  {
    SplitFirstField(url, '=');
    assert IndexOf(url, '=') == |url| ==> url[..IndexOf(url, '=')] == url;
    var fields := Split(url, '=');
    if |fields| < 2 then None else Some(fields[1])
  }

  /** `[i["text"] for i in transcript_data]`. */
  function Texts(items: seq<Fragment>): (texts: seq<string>)
    ensures |texts| == |items|
    ensures forall i :: 0 <= i < |items| ==> texts[i] == items[i].text
  {
    seq(|items|, i requires 0 <= i < |items| => items[i].text)
  }

  /**
   * `" ".join([i["text"] for i in transcript_data])`: all the texts, with one
   * space between neighbours.
   */
  function JoinFragments(items: seq<Fragment>): (transcript: string)
    ensures |items| > 0 ==> |transcript| == TotalLength(Texts(items)) + |items| - 1
    ensures |items| > 0 ==> IsPrefix(items[0].text, transcript)
  {
    var texts := Texts(items);
    if |items| > 0 then JoinStartsWithFirst(" ", texts); Join(" ", texts)
    else Join(" ", texts)
  }

  /**
   * `get_captions`: the SRT text, the sentinel when there is no track, or the
   * caught error. The result contains the sentinel exactly when there is no
   * track, or the SRT text or the error message contains it; an error is
   * reported with its prefix and flagged by the page.
   */
  function GetCaptions(c: CaptionOutcome): (fetched: string)
    ensures Contains(fetched, NoCaptionsSentinel) <==>
      match c
      case Captions(srt) => Contains(srt, NoCaptionsSentinel)
      case NoCaptions => true
      case CaptionError(m) => Contains(m, NoCaptionsSentinel)
    ensures c.CaptionError? ==> IsPrefix(CaptionErrorPrefix, fetched) && LooksLikeError(fetched)
  {
    match c
    case Captions(srt) => srt
    case NoCaptions => NoCaptionsSentinel
    case CaptionError(m) =>
      CaptionErrorKeepsSentinel(m);
      ErrorPrefixesAreFlagged(m);
      assert (CaptionErrorPrefix + m)[..|CaptionErrorPrefix|] == CaptionErrorPrefix;
      CaptionErrorPrefix + m
  }

  /**
   * `transcribe_audio`: the transcribed text, or the caught error reported
   * with its prefix and flagged by the page.
   */
  function TranscribeAudio(a: AudioOutcome): (text: string)
    ensures a.Transcribed? ==> text == a.text
    ensures a.AudioError? ==> IsPrefix(AudioErrorPrefix, text) && LooksLikeError(text)
  {
    match a
    case Transcribed(t) => t
    case AudioError(m) =>
      ErrorPrefixesAreFlagged(m);
      assert (AudioErrorPrefix + m)[..|AudioErrorPrefix|] == AudioErrorPrefix;
      AudioErrorPrefix + m
  }

  /** Every call the chain can make for `url`, in the order it makes them. */
  function FullChain(url: string, id: string): seq<Service> {
    [TranscriptApi(id), CaptionTrack(url, CaptionLanguage), AudioTranscription(url, WhisperModel)]
  }

  /**
   * `extract_transcript_details`. The calls made are always an initial
   * segment of the full chain: the services are tried in priority order,
   * each at most once, and none is tried for a URL without a video id.
   */
  function ExtractTranscriptDetails(url: string, primary: TranscriptOutcome,
                                    captions: CaptionOutcome, audio: AudioOutcome): (r: Resolution)
    ensures r.calls == [] <==> VideoId(url).None?
    ensures VideoId(url).Some? ==> r.calls <= FullChain(url, VideoId(url).value)
  {
    match VideoId(url)
    case None => Resolution(GenericErrorPrefix + IndexErrorMessage, [])
    case Some(id) =>
      var chain := FullChain(url, id);
      match primary
      case Fragments(items) => Resolution(JoinFragments(items), chain[..1])
      case OtherError(m) => Resolution(GenericErrorPrefix + m, chain[..1])
      case _ =>
        var fetched := GetCaptions(captions);
        if !Contains(fetched, NoCaptionsSentinel) then Resolution(fetched, chain[..2])
        else Resolution(TranscribeAudio(audio), chain)
  }

  /**
   * The page's test on the result (shown as an error instead of summarized):
   * "error" or "disabled" occurs somewhere in the lower-cased text.
   */
  function LooksLikeError(transcript: string): (flagged: bool)
    ensures flagged <==> exists i :: OccursAt(Lower(transcript), "error", i) || OccursAt(Lower(transcript), "disabled", i)
  {
    ContainsIff(Lower(transcript), "error");
    ContainsIff(Lower(transcript), "disabled");
    Contains(Lower(transcript), "error") || Contains(Lower(transcript), "disabled")
  }

  /** The length tiers offered by the page, in menu order. */
  const SummaryLengths: seq<string> := ["short", "medium", "detailed"]

  /** The `prompts` table. */
  const Prompts: map<string, string> := map[
    "short" := "Summarize this video in brief within 100 words.",
    "medium" := "Summarize this video in moderate detail within 250 words.",
    "detailed" := "Provide a comprehensive summary of this video in 500 words."
  ]

  /* ------------------------------------------------------------------ */
  /* Video id                                                            */
  /* ------------------------------------------------------------------ */

  /**
   * The video id is the text after the first `=`, up to the next `=` or the
   * end of the URL; there is none exactly when the URL has no `=`.
   */
  lemma VideoIdIsSecondField(url: string)
    ensures VideoId(url).None? <==> '=' !in url
    ensures '=' in url ==>
      var after := url[IndexOf(url, '=') + 1..];
      VideoId(url) == Some(after[..IndexOf(after, '=')])
  {
    var k := IndexOf(url, '=');
    SplitFirstField(url, '=');
    if k < |url| {
      var after := url[k + 1..];
      SplitFirstField(after, '=');
      assert Split(url, '=')[1] == Split(after, '=')[0];
    } else {
      assert url[..k] == url;
    }
  }

  /* ------------------------------------------------------------------ */
  /* The fallback chain                                                  */
  /* ------------------------------------------------------------------ */

  /**
   * A URL without `=` makes no external call: the IndexError is caught by
   * the generic handler and reported, and the page flags the result.
   */
  lemma MalformedUrlIsReported(url: string, primary: TranscriptOutcome,
                               captions: CaptionOutcome, audio: AudioOutcome)
    requires '=' !in url
    ensures var r := ExtractTranscriptDetails(url, primary, captions, audio);
      r.calls == [] && r.text == "An error occurred: list index out of range" && LooksLikeError(r.text)
  {
    VideoIdIsSecondField(url);
    ErrorPrefixesAreFlagged(IndexErrorMessage);
  }

  /**
   * When the service returns fragments, the result is their texts joined by
   * single spaces in order, and only the service was called.
   */
  lemma FragmentsAreJoined(url: string, items: seq<Fragment>,
                           captions: CaptionOutcome, audio: AudioOutcome)
    requires '=' in url
    ensures VideoId(url).Some?
    ensures var r := ExtractTranscriptDetails(url, Fragments(items), captions, audio);
      r.text == JoinFragments(items) && r.calls == [TranscriptApi(VideoId(url).value)]
  {
    VideoIdIsSecondField(url);
  }

  /**
   * The joined transcript keeps every fragment, in order: when no fragment
   * text contains a space, splitting it at spaces gives the texts back.
   */
  lemma JoinedFragmentsSplitBack(items: seq<Fragment>)
    requires |items| > 0
    requires forall i :: 0 <= i < |items| ==> ' ' !in items[i].text
    ensures var parts := Split(JoinFragments(items), ' ');
      |parts| == |items| && forall i :: 0 <= i < |items| ==> parts[i] == items[i].text
  {
    SplitJoin(Texts(items), ' ');
  }

  /**
   * The joined transcript keeps every fragment, in order, whatever the texts:
   * cutting the fragments at any inner position cuts the transcript at one
   * space.
   */
  lemma JoinedFragmentsInOrder(items: seq<Fragment>, i: nat)
    requires 0 < i < |items|
    ensures JoinFragments(items) == JoinFragments(items[..i]) + " " + JoinFragments(items[i..])
  {
    JoinAtCut(" ", Texts(items), i);
    assert Texts(items)[..i] == Texts(items[..i]);
    assert Texts(items)[i..] == Texts(items[i..]);
  }

  /**
   * Any other failure of the service is reported with the generic prefix;
   * neither captions nor audio are consulted, and the page flags it.
   */
  lemma OtherErrorIsFinal(url: string, m: string, captions: CaptionOutcome, audio: AudioOutcome)
    requires '=' in url
    ensures VideoId(url).Some?
    ensures var r := ExtractTranscriptDetails(url, OtherError(m), captions, audio);
      r.text == GenericErrorPrefix + m && r.calls == [TranscriptApi(VideoId(url).value)]
      && LooksLikeError(r.text)
  {
    VideoIdIsSecondField(url);
    ErrorPrefixesAreFlagged(m);
  }

  /** Only the two expected service failures lead to the caption lookup. */
  lemma CaptionsOnlyAfterExpectedFailure(url: string, primary: TranscriptOutcome,
                                         captions: CaptionOutcome, audio: AudioOutcome)
    requires '=' in url
    ensures var r := ExtractTranscriptDetails(url, primary, captions, audio);
      |r.calls| >= 2 <==> primary.TranscriptsDisabled? || primary.NoTranscriptFound?
  {
    VideoIdIsSecondField(url);
  }

  /**
   * After an expected failure, caption text without the sentinel is returned
   * unchanged and audio transcription is never invoked.
   */
  lemma CaptionTextIsReturned(url: string, primary: TranscriptOutcome, srt: string, audio: AudioOutcome)
    requires '=' in url
    requires primary.TranscriptsDisabled? || primary.NoTranscriptFound?
    requires !Contains(srt, NoCaptionsSentinel)
    ensures VideoId(url).Some?
    ensures var r := ExtractTranscriptDetails(url, primary, Captions(srt), audio);
      r.text == srt
      && r.calls == [TranscriptApi(VideoId(url).value), CaptionTrack(url, "en")]
  {
    VideoIdIsSecondField(url);
  }

  /**
   * After an expected failure, whenever the caption result contains the
   * sentinel the result is exactly the audio transcription's, after the
   * service and the caption lookup were tried in that order.
   */
  lemma SentinelFallsThroughToAudio(url: string, primary: TranscriptOutcome,
                                    captions: CaptionOutcome, audio: AudioOutcome)
    requires '=' in url
    requires primary.TranscriptsDisabled? || primary.NoTranscriptFound?
    requires Contains(GetCaptions(captions), NoCaptionsSentinel)
    ensures VideoId(url).Some?
    ensures var r := ExtractTranscriptDetails(url, primary, captions, audio);
      r.text == TranscribeAudio(audio)
      && r.calls == [TranscriptApi(VideoId(url).value), CaptionTrack(url, "en"), AudioTranscription(url, "base")]
  {
    VideoIdIsSecondField(url);
  }

  /** A missing caption track yields exactly the sentinel, so audio is tried. */
  lemma MissingCaptionsFallThroughToAudio(url: string, primary: TranscriptOutcome, audio: AudioOutcome)
    requires '=' in url
    requires primary.TranscriptsDisabled? || primary.NoTranscriptFound?
    ensures GetCaptions(NoCaptions) == NoCaptionsSentinel
    ensures ExtractTranscriptDetails(url, primary, NoCaptions, audio).text == TranscribeAudio(audio)
  {
    assert IsPrefix(NoCaptionsSentinel, NoCaptionsSentinel);
    SentinelFallsThroughToAudio(url, primary, NoCaptions, audio);
  }

  /**
   * A caption failure is reported with its prefix and, unless its message
   * itself contains the sentinel, returned without trying audio; the page
   * flags it.
   */
  lemma CaptionErrorIsReturned(url: string, primary: TranscriptOutcome, m: string, audio: AudioOutcome)
    requires '=' in url
    requires primary.TranscriptsDisabled? || primary.NoTranscriptFound?
    ensures var r := ExtractTranscriptDetails(url, primary, CaptionError(m), audio);
      (|r.calls| == 3 <==> Contains(m, NoCaptionsSentinel))
      && (!Contains(m, NoCaptionsSentinel) ==> r.text == CaptionErrorPrefix + m && LooksLikeError(r.text))
  {
    VideoIdIsSecondField(url);
  }

  /**
   * An audio failure reached through the chain is reported with its prefix,
   * never raised, and the page flags it.
   */
  lemma AudioErrorIsReported(url: string, primary: TranscriptOutcome,
                             captions: CaptionOutcome, m: string)
    requires '=' in url
    requires primary.TranscriptsDisabled? || primary.NoTranscriptFound?
    requires Contains(GetCaptions(captions), NoCaptionsSentinel)
    ensures var r := ExtractTranscriptDetails(url, primary, captions, AudioError(m));
      r.text == AudioErrorPrefix + m && LooksLikeError(r.text)
  {
    SentinelFallsThroughToAudio(url, primary, captions, AudioError(m));
    ErrorPrefixesAreFlagged(m);
  }

  /**
   * The outcome of a service the chain did not call has no influence on the
   * result: what audio transcription or the caption lookup would have given
   * is irrelevant unless that call appears in the resolution.
   */
  lemma UncalledServicesAreIrrelevant(url: string, primary: TranscriptOutcome,
                                      captions: CaptionOutcome, audio: AudioOutcome,
                                      captions': CaptionOutcome, audio': AudioOutcome)
    ensures var r := ExtractTranscriptDetails(url, primary, captions, audio);
      |r.calls| < 3 ==> ExtractTranscriptDetails(url, primary, captions, audio') == r
    ensures var r := ExtractTranscriptDetails(url, primary, captions, audio);
      |r.calls| < 2 ==> ExtractTranscriptDetails(url, primary, captions', audio') == r
  {
    var r := ExtractTranscriptDetails(url, primary, captions, audio);
    if VideoId(url).Some? && (primary.TranscriptsDisabled? || primary.NoTranscriptFound?) {
      assert |r.calls| >= 2;
      if !Contains(GetCaptions(captions), NoCaptionsSentinel) {
        assert ExtractTranscriptDetails(url, primary, captions, audio') == r;
      } else {
        assert |r.calls| == 3;
      }
    }
  }

  /** Both expected service failures lead to the same resolution. */
  lemma ExpectedFailuresAgree(url: string, captions: CaptionOutcome, audio: AudioOutcome)
    ensures ExtractTranscriptDetails(url, TranscriptsDisabled, captions, audio)
         == ExtractTranscriptDetails(url, NoTranscriptFound, captions, audio)
  {
  }

  /* ------------------------------------------------------------------ */
  /* The error classifier                                                */
  /* ------------------------------------------------------------------ */

  /** The caption error prefix neither adds nor hides the sentinel. */
  lemma CaptionErrorKeepsSentinel(m: string)
    ensures Contains(CaptionErrorPrefix + m, NoCaptionsSentinel) <==> Contains(m, NoCaptionsSentinel)
  {
    assert NoCaptionsSentinel[0] == 'N';
    assert 'N' !in CaptionErrorPrefix;
    ContainsAfterPrefix(CaptionErrorPrefix, m, NoCaptionsSentinel);
  }

  /** A text is flagged when its lower-cased form has "error" at a position inside a prefix. */
  lemma PrefixWithErrorIsFlagged(p: string, m: string, at: nat)
    requires at + 5 <= |p| && Lower(p)[at..at + 5] == "error"
    ensures LooksLikeError(p + m)
  {
    LowerConcat(p, m);
    assert Lower(p + m)[at..at + 5] == Lower(p)[at..at + 5];
    assert OccursAt(Lower(p + m), "error", at);
  }

  /** Every error prefix the resolver writes makes the page flag the text, whatever follows. */
  lemma ErrorPrefixesAreFlagged(m: string)
    ensures LooksLikeError(GenericErrorPrefix + m)
    ensures LooksLikeError(CaptionErrorPrefix + m)
    ensures LooksLikeError(AudioErrorPrefix + m)
  {
    assert Lower(GenericErrorPrefix)[3..8] == "error";
    PrefixWithErrorIsFlagged(GenericErrorPrefix, m, 3);
    assert Lower(CaptionErrorPrefix)[0..5] == "error";
    PrefixWithErrorIsFlagged(CaptionErrorPrefix, m, 0);
    assert Lower(AudioErrorPrefix)[0..5] == "error";
    PrefixWithErrorIsFlagged(AudioErrorPrefix, m, 0);
  }

  /** The classifier ignores letter case: lower-casing a text first does not change its verdict. */
  lemma FlaggingIgnoresCase(transcript: string)
    ensures LooksLikeError(Lower(transcript)) == LooksLikeError(transcript)
  {
    assert Lower(Lower(transcript)) == Lower(transcript);
  }

  /**
   * The classifier also flags genuine transcripts: a service transcript that
   * mentions "Error" in any letter case is treated as a failure.
   */
  lemma GenuineTranscriptCanBeFlagged(url: string, captions: CaptionOutcome, audio: AudioOutcome)
    requires '=' in url
    ensures var r := ExtractTranscriptDetails(url, Fragments([Fragment("Trial and ERROR", 0.0, 2.5)]), captions, audio);
      r.text == "Trial and ERROR" && LooksLikeError(r.text)
  {
    var items := [Fragment("Trial and ERROR", 0.0, 2.5)];
    FragmentsAreJoined(url, items, captions, audio);
    var t := "Trial and ERROR";
    assert Lower(t)[10..15] == "error";
    PrefixWithErrorIsFlagged(t, "", 10);
    assert t + "" == t;
  }

  /* ------------------------------------------------------------------ */
  /* Prompt table                                                        */
  /* ------------------------------------------------------------------ */

  /** Every length the page offers has a prompt, no other key has one, and the prompts differ. */
  lemma PromptsCoverLengths()
    ensures Prompts.Keys == set l | l in SummaryLengths
    ensures forall i, j :: 0 <= i < j < |SummaryLengths| ==> Prompts[SummaryLengths[i]] != Prompts[SummaryLengths[j]]
  {
  }

  /* ------------------------------------------------------------------ */
  /* Worked scenarios                                                    */
  /* ------------------------------------------------------------------ */

  const SampleUrl := "https://youtube.com/watch?v=ABC123"

  /** A link whose only `=` separates a prefix from the id carries that id. */
  lemma VideoIdAfterOnlySeparator(a: string, id: string)
    requires '=' !in a && '=' !in id
    ensures VideoId(a + ['='] + id) == Some(id)
  {
    SplitAtSeparator(a, id, '=');
    SplitWithoutSeparator(id, '=');
  }

  /** The sample link carries the id ABC123. */
  lemma SampleUrlId()
    ensures '=' in SampleUrl && VideoId(SampleUrl) == Some("ABC123")
  {
    var a, id := "https://youtube.com/watch?v", "ABC123";
    assert '=' !in a by {
      forall i | 0 <= i < |a| ensures a[i] != '=' { }
    }
    assert '=' !in id;
    VideoIdAfterOnlySeparator(a, id);
    assert a + ['='] + id == SampleUrl;
  }

  /** The service answers "Hello", "world": the transcript is "Hello world", fetched for id ABC123. */
  lemma HelloWorldScenario(captions: CaptionOutcome, audio: AudioOutcome)
    ensures var r := ExtractTranscriptDetails(SampleUrl,
        Fragments([Fragment("Hello", 0.0, 1.0), Fragment("world", 1.0, 1.0)]), captions, audio);
      r.text == "Hello world" && r.calls == [TranscriptApi("ABC123")]
  {
    var items := [Fragment("Hello", 0.0, 1.0), Fragment("world", 1.0, 1.0)];
    assert JoinFragments(items) == "Hello world" by {
      var texts := seq(|items|, i requires 0 <= i < |items| => items[i].text);
      assert texts == ["Hello", "world"];
      assert Join(" ", texts) == "Hello" + " " + Join(" ", ["world"]);
    }
    SampleUrlId();
    FragmentsAreJoined(SampleUrl, items, captions, audio);
  }

  /** No transcript, captions "Hi everyone": that text is returned and audio is not tried. */
  lemma CaptionScenario(audio: AudioOutcome)
    ensures var r := ExtractTranscriptDetails(SampleUrl, NoTranscriptFound, Captions("Hi everyone"), audio);
      r.text == "Hi everyone" && |r.calls| == 2
  {
    SampleUrlId();
    CaptionTextIsReturned(SampleUrl, NoTranscriptFound, "Hi everyone", audio);
  }

  /** No transcript and no caption track: the audio transcription "test audio text" is returned. */
  lemma AudioScenario()
    ensures ExtractTranscriptDetails(SampleUrl, NoTranscriptFound, NoCaptions, Transcribed("test audio text")).text
         == "test audio text"
  {
    SampleUrlId();
    MissingCaptionsFallThroughToAudio(SampleUrl, NoTranscriptFound, Transcribed("test audio text"));
  }
}
