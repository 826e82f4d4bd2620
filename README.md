# Transcript acquisition of the YouTube summarizer, in Dafny

The summarizer page takes a YouTube link and fetches a transcript for it through
an ordered fallback chain (`extract_transcript_details` in `summarization.py`):

1. the transcript service (`YouTubeTranscriptApi.get_transcript`) for the video id;
2. only when that raises `TranscriptsDisabled` or `NoTranscriptFound`, the English
   caption track (`get_captions`);
3. only when the caption result contains the sentinel `"No captions available."`,
   the audio stream transcribed by the `base` speech-to-text model (`transcribe_audio`).

Every failure becomes a string with a fixed prefix, never a raised fault. The page
then treats a result as an error when its lower-cased text contains `"error"` or
`"disabled"`.

The model has two modules:

- `PyText` (`pytext.dfy`) holds the Python string operations the chain is made of.
  These are `str.split` on one character, `str.join`, the substring test `in`, and
  `str.lower`. Each comes with an independent description and a lemma linking the
  two: split and join are inverse round trips, and `in` is matched against an
  occurrence position.
- `Summarization` (`summarization.py`'s logic) treats each external call as an input
  value: `TranscriptOutcome`, `CaptionOutcome` and `AudioOutcome`. Exception messages
  and SRT or transcription text are opaque strings. `ExtractTranscriptDetails`
  returns a `Resolution`: the returned text together with the external calls made,
  in order. So "audio is never tried" is a statement about the model, and so is
  "the outcome of an uncalled service cannot influence the result".

Two behaviours of the code are easy to miss:

- A link without `=` does not raise. The `IndexError` of `split("=")[1]` is caught by
  the generic handler, so the result is `"An error occurred: list index out of range"`
  (CPython's message for that error), and no service is called.
- Captions fall through to audio when their text *contains* the sentinel, not only
  when it equals it. The same holds for a caption error whose message contains the
  sentinel: it falls through to audio, while every other caption error is returned
  as is.

## Model

| member | source | states |
|---|---|---|
| `PyText.Split` | summarization.py:45 | `s.split(c)` always yields at least one field, and no field contains the separator |
| `PyText.SplitFirstField` | summarization.py:45 | the first field is the text before the first separator; the remaining fields are the split of the text after it; a separator-free text is its own only field |
| `PyText.Join` | summarization.py:47 | models `sep.join(parts)`; a non-empty join is as long as all parts plus one separator between each two neighbours; `PyText.JoinAtCut` and `PyText.SplitJoin` state where the parts land |
| `PyText.JoinAtCut` | summarization.py:47 | cutting the parts at any inner position cuts the joined text at exactly one separator, for all parts |
| `PyText.JoinStartsWithFirst` | summarization.py:47 | a join of at least one part begins with the first part |
| `PyText.JoinSplit` | summarization.py:45 | joining the fields of a split with the separator gives back the original text |
| `PyText.SplitJoin` | summarization.py:47 | splitting a join at the separator recovers the parts when none contains the separator |
| `PyText.ContainsIff` | summarization.py:50 | `sub in s` holds exactly when `sub` occurs at some position of `s` |
| `PyText.Contains` | summarization.py:50 | models `sub in s`; a string contains only strings no longer than itself, and every prefix of it; its full meaning is stated by `PyText.ContainsIff` |
| `PyText.ContainsConcatLeft` | summarization.py:72 | an occurrence in a prefix survives appending any text |
| `PyText.ContainsAfterPrefix` | summarization.py:29 | a prefix lacking the first character of `sub` neither creates nor removes occurrences of `sub` |
| `PyText.IndexOf` | summarization.py:45 | the position found holds the separator and nothing before it does, or it is the length when the text has none |
| `PyText.Lower` | summarization.py:72 | lower-casing keeps the length, turns each upper-case ASCII letter into the same letter in lower case, and leaves every other character unchanged |
| `PyText.LowerConcat` | summarization.py:72 | lower-casing distributes over concatenation |
| `Summarization.ExtractTranscriptDetails` | summarization.py:43-55 | the calls made are an initial segment of service, then captions "en", then audio "base": each is tried at most once and in priority order; no call is made exactly when the link has no video id |
| `Summarization.VideoId` | summarization.py:45 | models `url.split("=")[1]`; there is no id (the IndexError) exactly when the link has no `=`, and an id never contains `=`; `Summarization.VideoIdIsSecondField` locates it |
| `Summarization.JoinFragments` | summarization.py:47 | models `" ".join(...)` of the fragment texts; a non-empty result is as long as all texts plus one space between neighbours, and begins with the first text; `Summarization.JoinedFragmentsInOrder` places the rest |
| `Summarization.GetCaptions` | summarization.py:23-29 | models `get_captions`; its result contains the sentinel exactly when the track is missing or the SRT text or error message contains it; an error is reported with "Error fetching captions: " and flagged by the page |
| `Summarization.TranscribeAudio` | summarization.py:31-41 | models `transcribe_audio`; transcribed text is returned as is, and a failure is reported with "Error transcribing audio: " and flagged by the page |
| `Summarization.LooksLikeError` | summarization.py:72 | models the page's error test; a text is flagged exactly when "error" or "disabled" occurs at some position of its lower-cased form |
| `Summarization.FlaggingIgnoresCase` | summarization.py:72 | lower-casing a text first does not change the page's verdict on it |
| `Summarization.CaptionErrorKeepsSentinel` | summarization.py:29 | the caption error prefix neither adds nor hides an occurrence of the sentinel |
| `Summarization.PrefixWithErrorIsFlagged` | summarization.py:72 | a text whose prefix has "error" in some letter case is flagged whatever follows |
| `Summarization.VideoIdAfterOnlySeparator` | summarization.py:45 | a link whose only `=` separates a prefix from the id carries exactly that id |
| `Summarization.VideoIdIsSecondField` | summarization.py:45 | there is no video id exactly when the link has no `=`; otherwise the id is the text after the first `=` up to the next `=` or the end |
| `Summarization.MalformedUrlIsReported` | summarization.py:44-55 | a link without `=` makes no call and yields "An error occurred: list index out of range", which the page flags |
| `Summarization.FragmentsAreJoined` | summarization.py:46-47 | when the service returns fragments, the result is their texts joined by single spaces and only the service was called, with the id |
| `Summarization.JoinedFragmentsSplitBack` | summarization.py:47 | the joined transcript keeps every fragment text in order: with no space inside a text, splitting at spaces gives the texts back |
| `Summarization.JoinedFragmentsInOrder` | summarization.py:47 | for any fragments, cutting them at an inner position cuts the transcript at exactly one space, so every text appears whole and in order |
| `Summarization.OtherErrorIsFinal` | summarization.py:54-55 | any other service failure yields "An error occurred: " + message; captions and audio are not consulted; the page flags it |
| `Summarization.CaptionsOnlyAfterExpectedFailure` | summarization.py:48-49 | captions are consulted exactly when the service raised TranscriptsDisabled or NoTranscriptFound |
| `Summarization.CaptionTextIsReturned` | summarization.py:48-51 | after an expected failure, caption text without the sentinel is returned unchanged and audio is not invoked |
| `Summarization.SentinelFallsThroughToAudio` | summarization.py:50-53 | after an expected failure, a caption result containing the sentinel makes the result exactly the audio transcription's, after service then captions then audio |
| `Summarization.MissingCaptionsFallThroughToAudio` | summarization.py:26-27 | a missing English track yields exactly the sentinel, so the result is the audio transcription's |
| `Summarization.CaptionErrorIsReturned` | summarization.py:28-51 | a caption error goes on to audio exactly when its message contains the sentinel; otherwise "Error fetching captions: " + message is returned and the page flags it |
| `Summarization.AudioErrorIsReported` | summarization.py:40-41 | an audio failure reached through the chain yields "Error transcribing audio: " + message, which the page flags |
| `Summarization.UncalledServicesAreIrrelevant` | summarization.py:48-53 | the audio outcome, or the caption and audio outcomes, cannot change the resolution when those calls were not made |
| `Summarization.ExpectedFailuresAgree` | summarization.py:48 | TranscriptsDisabled and NoTranscriptFound lead to the same resolution |
| `Summarization.ErrorPrefixesAreFlagged` | summarization.py:72 | every text starting with one of the three error prefixes is flagged by the page's error test, whatever follows |
| `Summarization.GenuineTranscriptCanBeFlagged` | summarization.py:72 | a genuine service transcript containing "ERROR" is flagged as an error too |
| `Summarization.PromptsCoverLengths` | summarization.py:10-14 | the prompt table (the constant `Prompts`) has exactly the three lengths the page's menu (the constant `SummaryLengths`, line 67) offers, and their prompts differ |
| `Summarization.SampleUrlId` | summarization.py:45 | the link `https://youtube.com/watch?v=ABC123` has the id `ABC123` |
| `Summarization.HelloWorldScenario` | summarization.py:46-47 | fragments "Hello", "world" give "Hello world", fetched for id ABC123 |
| `Summarization.CaptionScenario` | summarization.py:48-51 | no transcript plus captions "Hi everyone" gives "Hi everyone" without trying audio |
| `Summarization.AudioScenario` | summarization.py:48-53 | no transcript and no caption track, with the audio transcription "test audio text", gives "test audio text" |

## Left out

- The Streamlit page (`show_summarization_page`, `main`) is not modelled: widgets, the thumbnail, the title lookup, the download button and the stub summary text (line 73). Only its error test (line 72) and its menu of lengths (line 67) are kept. Its own `split("=")[1]` (line 63) sits outside any `try`, so a link without `=` raises there on the page. That UI path is not part of this model.
- `get_video_details` is a one-line wrapper over pytube with a constant fallback. It is not modelled.
- The transcript service, pytube's caption and stream lookup, the audio download to `audio.mp3` and the whisper model are foreign code with I/O. Each is an input value giving what it returns or raises. The model does not track the file left on disk, the time taken or nondeterminism between calls.
- `load_dotenv` is environment loading. It is not modelled.
- Exceptions other than those listed cannot escape the handlers in the source, apart from `BaseException` subclasses such as `KeyboardInterrupt`, which are not modelled.
- A fragment without a `"text"` key would raise `KeyError` inside the `try` and be reported by the generic handler. Fragments here always carry text.
- `PyText.Lower`: lower-cases only the ASCII letters. Python's `str.lower` also folds other scripts, and can change the length. This does not affect the error prefixes, which are ASCII.
