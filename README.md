# Chat window: reply segmentation and the send step

A model of the core of a single-window desktop chat client (`MainWindow.xaml.cs`). When the
user presses Send, the handler does the following:

1. It refuses blank input.
2. It clears the input box and asks a cheap model whether the text asks for an image.
3. It appends the user's bubble and user turn.
4. It routes the request:
   - An answer whose trimmed text starts with `y` (case-insensitive) goes to image generation.
   - Anything else goes to the chat model. The chat reply is split at its code fences
     (```` ```lang\n…``` ````) into text and code entries of the transcript.

Modules, one concern each:

- `Wrappers`: `Option` and `Result`.
- `Text`: .NET white space (`Char.IsWhiteSpace`), `String.IsNullOrWhiteSpace` and
  `String.Trim`. `Trim` is characterised as the unique slice with white space outside and
  non-white ends.
- `FencePattern`: the regular expression ```` ```(.*?)\n(.*?)``` ```` in single-line mode.
  - `MatchAt` is the lazy match at one index.
  - `FindFence` is the leftmost match at or after a position.
  - `AllFences` is `Regex.Matches`.
  - Proved: `AllFences` is the unique sequence of leftmost, non-overlapping lazy matches.
- `ChatModel`: turns of the history (`_messages`), entries of the transcript (`_chatItems`), and
  an order-keeping `Filter`.
- `Segmenter`: `ParsedItems(raw)` is the reference definition of what
  `AddParsedAssistantResponse` appends. Its lemmas cover the code items, the text items, the
  tiling of the reply by gaps and matches, and styles.
- `Routing`: the image-or-chat test of the send handler.
- `ChatWindow`: the `MainWindow` class with its fields (input text, history, transcript,
  generated image) and the methods `AddMessage`, `AddParsedAssistantResponse` and
  `SendButtonClick`. The invariant `Valid` says:
  - A system turn is only first.
  - An assistant turn follows a user turn.
  - User turns and user bubbles hold the same texts.
  - Every entry is styled for its kind.

The network calls are inputs of `SendButtonClick`. These are the classifier reply, the chat
reply and the image reply, each either a failure or a result.

Behaviours worth knowing:

- A failing classification call leaves the handler before anything is appended. The model
  does not fall back to the chat path.
- A classifier reply without content fails at `Content[0]` after the user turn has been
  appended (`Escaped`).
- A failing chat call, or one without content, is swallowed by the empty `catch`. Nothing is
  shown.
- A reply without any fence is appended exactly as received: untrimmed, and even when blank.
  There is no placeholder.
- The contents of `UserInfo.txt` become a system turn even when blank.

## Model

| member | source | states |
|---|---|---|
| Text.TrimSpec | MainWindow.xaml.cs:194-195 | Trim is the slice of the input that drops the leading and trailing white space and keeps everything between; it is empty exactly when the input is blank, otherwise it begins and ends with non-white characters |
| Text.TrimUnique | MainWindow.xaml.cs:199-200 | any slice with only white space outside it and non-white first and last characters is the trimmed string |
| Text.IsNullOrWhiteSpace | MainWindow.xaml.cs:194 | String.IsNullOrWhiteSpace: every character is .NET white space (the exact set of Char.IsWhiteSpace), so the empty string is blank; a definition, characterised with Trim by TrimSpec and TrimNotBlank |
| Text.Trim | MainWindow.xaml.cs:199-200 | String.Trim: drops leading, then trailing .NET white space; the result is never longer than the input, and TrimSpec and TrimUnique pin it down |
| Text.TrimIdempotent | MainWindow.xaml.cs:195 | trimming a trimmed string changes nothing |
| Text.TrimNotBlank | MainWindow.xaml.cs:194-195 | a stretch is blank if and only if its trimmed form is blank, so a non-blank stretch never yields a blank text entry |
| FencePattern.FindTicks | MainWindow.xaml.cs:176 | the result is the first index at or after the start holding three backticks, or none when no such index exists |
| FencePattern.FindNewline | MainWindow.xaml.cs:176 | the result is the first newline at or after the start, or none when there is none |
| FencePattern.MatchAt | MainWindow.xaml.cs:176-178 | the regex engine's attempt at one index: a match it returns starts there and lies inside the reply; MatchAtSemantics proves it is the lazy match and found exactly when the pattern can match |
| FencePattern.FindFence | MainWindow.xaml.cs:176-178 | Regex.Match from a position: the match returned starts at or after it and lies inside the reply; FindFenceIsLeftmost proves it is the leftmost one |
| FencePattern.MatchAtSemantics | MainWindow.xaml.cs:176-178 | a match starts at i if and only if three backticks at i are followed by a newline and later by three more backticks; the match found is the lazy one: first newline, then first closing backticks after it |
| FencePattern.LazyMatchIsFound | MainWindow.xaml.cs:176 | any lazy match at i is the one the matcher returns at i |
| FencePattern.FindFenceIsLeftmost | MainWindow.xaml.cs:177-178 | the fence found from p is a lazy match with no match starting between p and it; none is found only if no match starts at or after p |
| FencePattern.AllFences | MainWindow.xaml.cs:177-178 | the matches lie inside the reply, in order, without overlapping, each starting at or after the end of the previous one |
| FencePattern.SequentialInBounds | MainWindow.xaml.cs:193 | every match of such a sequence lies inside the reply |
| FencePattern.AllFencesAreLeftmost | MainWindow.xaml.cs:177-178 | the matches are the leftmost lazy matches, each scan resuming at the end of the previous match, with no match left after the last |
| FencePattern.LeftmostMatchesUnique | MainWindow.xaml.cs:177-178 | any sequence of leftmost non-overlapping lazy matches is exactly the one Regex.Matches yields |
| Segmenter.Language | MainWindow.xaml.cs:199 | group 1 of a match: the text between the opening fence and the first newline after it |
| Segmenter.Body | MainWindow.xaml.cs:200 | group 2 of a match: the text between that newline and the closing fence |
| Segmenter.CodeItemOf | MainWindow.xaml.cs:199-208 | the code entry for a match: trimmed body, trimmed language, dark background |
| Segmenter.GapItems | MainWindow.xaml.cs:191-196 | the entry for one stretch: a light gray text entry holding the trimmed stretch when it is non-empty and not blank, else none |
| Segmenter.ItemsOf | MainWindow.xaml.cs:187-219 | the fenced path for a list of matches: with N matches at least N and at most 2N + 1 entries (one code entry per match, at most one text entry before each and after the last) |
| Segmenter.ParsedItems | MainWindow.xaml.cs:180-219 | everything appended for a reply: at least one entry, and at most 2N + 1 for N matches; the Segmenter lemmas state what the entries are |
| Segmenter.CodeItemsOfAt | MainWindow.xaml.cs:199-208 | the k-th reference code item holds the trimmed body and trimmed language of the k-th match, on the dark background |
| Segmenter.GapsTile | MainWindow.xaml.cs:191-216 | the stretches before each match, the matched text and the tail, woven in order, give back the reply from the cursor on: gaps and matches tile the input without overlap |
| Segmenter.CodeItemsFollowFences | MainWindow.xaml.cs:188-211 | the code entries of the fenced path are one per match, in match order |
| Segmenter.GapTextItems | MainWindow.xaml.cs:191-196 | a stretch yields a text entry only when it is not blank, and then its trimmed text |
| Segmenter.TextItemsFollowGaps | MainWindow.xaml.cs:191-219 | the text entries of the fenced path are the trimmed non-blank stretches between matches and the tail, in order |
| Segmenter.NonBlankTextsShape | MainWindow.xaml.cs:194-195 | at most one text entry per stretch, none blank, each already trimmed |
| Segmenter.ItemsOfStyled | MainWindow.xaml.cs:202-208 | in the fenced path, code entries are dark and text entries light gray |
| Segmenter.ParsedItemsStyled | MainWindow.xaml.cs:180-219 | every entry appended for a reply has the assistant style for its kind and none is a user bubble |
| Segmenter.ParsedCodeItems | MainWindow.xaml.cs:188-211 | with N matches exactly N code entries are appended, in left-to-right order, the k-th made of the k-th match |
| Segmenter.NoFenceKeepsRawText | MainWindow.xaml.cs:180-184 | the reply is appended as one text entry holding it unchanged (untrimmed, even blank) if and only if the pattern finds no match |
| Segmenter.FencedTextItems | MainWindow.xaml.cs:191-219 | with N >= 1 matches, gaps and matches tile the reply; the text entries are the trimmed non-blank gaps; at most N + 1 of them; none blank; each trimmed |
| Routing.IsImageRequest | MainWindow.xaml.cs:75 | the routing test: the trimmed answer is non-empty and starts with y or Y (OrdinalIgnoreCase); ImageRequestIff characterises it |
| Routing.ImageRequestIff | MainWindow.xaml.cs:75 | an answer routes to the image path if and only if its first non-white character is y or Y; a blank answer routes to chat |
| Routing.RouteByFirstNonWhite | MainWindow.xaml.cs:75 | only the first non-white character of the answer decides the route |
| Routing.RoutingExampleYes | MainWindow.xaml.cs:75 | "Yes, that sounds like an image." routes to the image path |
| Routing.RoutingExampleNo | MainWindow.xaml.cs:75 | "No, that's a question." routes to chat |
| Routing.RoutingExampleIndented | MainWindow.xaml.cs:75 | leading white space is skipped before the test; an answer in another script routes to chat |
| Routing.RoutingExampleBlank | MainWindow.xaml.cs:75 | an empty or blank answer routes to chat |
| ChatWindow.GenerateImage | MainWindow.xaml.cs:116-132 | bytes are returned if and only if the prompt is not blank, the call succeeds and the payload is not empty; a blank prompt fails with the argument error before any call; a failed call fails with its own message; an empty payload fails with "画像データが空です。" |
| ChatWindow.ChatText | MainWindow.xaml.cs:98 | the assistant text is the first content part of a successful chat reply; a failed call or a reply without content (the IndexOutOfRange at Content[0], caught at line 107) gives none |
| ChatWindow.AppendUserTurn | MainWindow.xaml.cs:72-73 | appending the user's bubble and user turn together keeps user turns and user bubbles in agreement |
| ChatWindow.AppendAssistantTurn | MainWindow.xaml.cs:102-105 | appending the parsed reply and the assistant turn keeps user turns and user bubbles in agreement |
| ChatWindow.UserTurnKeepsShape | MainWindow.xaml.cs:72-73 | a user turn keeps turns ordered; its light blue bubble keeps the transcript styled |
| ChatWindow.AssistantTurnKeepsOrder | MainWindow.xaml.cs:105 | an assistant turn right after a user turn keeps turns ordered |
| ChatWindow.ParsedReplyKeepsStyle | MainWindow.xaml.cs:102 | appending a parsed reply keeps every entry styled for its kind |
| ChatWindow.MainWindow.constructor | MainWindow.xaml.cs:26-44 | empty transcript and input; the history is the system turn from UserInfo.txt when the file exists, else empty |
| ChatWindow.MainWindow.AddMessage | MainWindow.xaml.cs:145-152 | exactly one text entry is appended at the end, light blue for the user and light gray otherwise |
| ChatWindow.MainWindow.AddTextStretch | MainWindow.xaml.cs:191-196 | the stretch is appended, trimmed, only if it is non-empty and not blank |
| ChatWindow.MainWindow.AddParsedAssistantResponse | MainWindow.xaml.cs:172-220 | the transcript becomes the old transcript followed by ParsedItems(reply), whose properties are the Segmenter lemmas |
| ChatWindow.MainWindow.SendButtonClick | MainWindow.xaml.cs:51-111 | keeps Valid. Blank input changes nothing. Otherwise the input is cleared. A failed classifier call appends nothing. Else the user bubble and user turn are appended first. An answer without content escapes there. The image route sets the image or reports the prefixed error and appends nothing more. The chat route appends the parsed reply and then the assistant turn on success, and nothing on failure |

## Left out

- The OpenAI calls (classification, chat completion, image generation) are represented only by
  their outcomes, which are inputs of `SendButtonClick`. The model names and the image size are
  not modelled.
- The request contents are not modelled: neither the classifier prompt template built from the
  user's text (MainWindow.xaml.cs:68) nor the history sent to the chat model (line 96). The chat
  reply is an arbitrary input, not tied to the history. So the model does not capture that the
  chat call receives the whole history ending with the user turn just appended at line 73.
- Bitmap decoding and the memory stream in `GenerateImageUrlAsync`: a decoding failure is one
  of the `ImageFailed` outcomes, and `GeneratedImage.Source` holds the bytes.
- Message boxes are not state. The refusal of blank input is the `Rejected` outcome. The image
  error dialog is `ImageError` with its text.
- `InputTextBox.Focus`, the dispatcher scroll-to-end in `AddMessage`, the clipboard copy of
  code entries, the AvalonEdit styling and the Ctrl+Enter key handling are UI plumbing.
- Reading `OPENAI_API_KEY` and the file `UserInfo.txt` is I/O. The file's contents, if it
  exists, are the constructor's parameter.
- Overlapping sends (`async void` re-entrancy) are not modelled. Each `SendButtonClick` runs to
  completion with all outcomes known.
- Null strings are not modelled: every text is a (possibly empty) sequence of characters.
  Characters are Unicode scalar values rather than UTF-16 code units.
- Brushes are the three-way enumeration `LightBlue`, `LightGray`, `Dark`. The `Type` field of
  an entry is the constructor (`TextItem` or `CodeItem`). The unset `Language` of text entries
  is not represented.
- ChatWindow.GenerateImage: does not distinguish the exception types, only their messages.
