/**
 * The window's state and the handlers that change it. The two network calls (classification,
 * then chat completion or image generation) are replaced by their outcomes, given as inputs;
 * everything the handlers do to the input box, the history, the transcript and the generated
 * image is modelled in the order the handlers do it.
 */
module ChatWindow {
  import opened Wrappers
  import opened Text
  import opened FencePattern
  import opened ChatModel
  import opened Segmenter
  import opened Routing

  /** The classification call: it threw, or it returned these content parts. */
  datatype JudgeReply = JudgeFailed | JudgeReplied(content: seq<string>)

  /** The chat completion call: it threw, or it returned these content parts. */
  datatype ChatReply = ChatFailed | ChatReplied(content: seq<string>)

  /** The image call: it (or decoding its bytes) threw with a message, or it returned bytes (none if null). */
  datatype ImageReply = ImageFailed(message: string) | ImageReplied(bytes: seq<bv8>)

  /** How one press of Send ends. */
  datatype SendOutcome =
    | Rejected                     // blank input: "メッセージを入力してください" is shown
    | Escaped                      // an exception leaves the handler
    | ImageShown
    | ImageError(message: string)  // the message box text
    | ChatShown
    | ChatSwallowed                // the chat call failed; the catch block does nothing

  const BlankPromptMessage: string := "プロンプトが空です。 (Parameter 'prompt')"
  const EmptyImageMessage: string := "画像データが空です。"
  const ImageErrorPrefix: string := "画像生成中にエラー: "

  /**
   * GenerateImageUrlAsync without the bitmap decoding: a blank prompt is refused before the
   * service is called, a failed call or an empty (or null) payload is an error, else the bytes.
   */
  function GenerateImage(prompt: string, reply: ImageReply): (r: Result<seq<bv8>>)
    ensures r.Ok? <==> !IsNullOrWhiteSpace(prompt) && reply.ImageReplied? && reply.bytes != []
    ensures r.Ok? ==> r.value == reply.bytes
    ensures IsNullOrWhiteSpace(prompt) ==> r == Err(BlankPromptMessage)
    ensures !IsNullOrWhiteSpace(prompt) && reply.ImageFailed? ==> r == Err(reply.message)
    ensures !IsNullOrWhiteSpace(prompt) && reply == ImageReplied([]) ==> r == Err(EmptyImageMessage)
  {
    if IsNullOrWhiteSpace(prompt) then Err(BlankPromptMessage)
    else match reply
      case ImageFailed(message) => Err(message)
      case ImageReplied(bytes) => if bytes == [] then Err(EmptyImageMessage) else Ok(bytes)
  }

  /** The assistant text of a chat reply: its first content part, if there is one. */
  function ChatText(reply: ChatReply): (r: Option<string>)
    ensures r.Some? <==> reply.ChatReplied? && reply.content != []
    ensures r.Some? ==> r.value == reply.content[0]
  {
    if reply.ChatReplied? && |reply.content| > 0 then Some(reply.content[0]) else None
  }

  /** The background a transcript entry may have: a light one for text, the dark one for code. */
  predicate StyleFits(item: ChatItem) {
    match item
    case TextItem(_, b) => b == LightBlue || b == LightGray
    case CodeItem(_, _, b) => b == Dark
  }

  /** The user turns of the history and the user bubbles of the transcript hold the same texts. */
  ghost predicate UserTextsAgree(messages: seq<ChatMessage>, items: seq<ChatItem>) {
    TextsAgree(Filter(messages, IsUserTurn), Filter(items, IsUserBubble))
  }

  /** Two sequences, one of turns and one of entries, of the same length and with the same texts. */
  ghost predicate TextsAgree(turns: seq<ChatMessage>, bubbles: seq<ChatItem>) {
    |turns| == |bubbles| && forall k :: 0 <= k < |turns| ==> turns[k].text == bubbles[k].text
  }

  /** A system turn can only be the first one; every assistant turn directly follows a user turn. */
  ghost predicate TurnsOrdered(messages: seq<ChatMessage>) {
    && (forall i :: 0 < i < |messages| ==> messages[i].role != System)
    && (forall i :: 0 <= i < |messages| && messages[i].role == Assistant ==> 0 < i && messages[i - 1].role == User)
  }

  /** Every entry of the transcript has a background that fits its kind. */
  ghost predicate TranscriptStyled(items: seq<ChatItem>) {
    forall i :: 0 <= i < |items| ==> StyleFits(items[i])
  }

  /** Appending one turn and one bubble with the same text keeps texts in agreement. */
  lemma TextsAgreeAppend(turns: seq<ChatMessage>, bubbles: seq<ChatItem>, m: ChatMessage, b: ChatItem)
    requires TextsAgree(turns, bubbles) && m.text == b.text
    ensures TextsAgree(turns + [m], bubbles + [b])
  {
  }

  /** A user turn added together with its bubble keeps the history and the transcript in step. */
  lemma AppendUserTurn(messages: seq<ChatMessage>, items: seq<ChatItem>, text: string)
    requires UserTextsAgree(messages, items)
    ensures UserTextsAgree(messages + [ChatMessage(User, text)], items + [TextItem(text, LightBlue)])
  {
    var m := [ChatMessage(User, text)];
    var b := [TextItem(text, LightBlue)];
    assert Filter(messages + m, IsUserTurn) == Filter(messages, IsUserTurn) + m by {
      FilterAppend(messages, m, IsUserTurn);
      assert m[1..] == [];
    }
    assert Filter(items + b, IsUserBubble) == Filter(items, IsUserBubble) + b by {
      FilterAppend(items, b, IsUserBubble);
      assert b[1..] == [];
    }
    TextsAgreeAppend(Filter(messages, IsUserTurn), Filter(items, IsUserBubble), m[0], b[0]);
  }

  /** An assistant turn added together with its parsed reply keeps the history and the transcript in step. */
  lemma AppendAssistantTurn(messages: seq<ChatMessage>, items: seq<ChatItem>, text: string)
    requires UserTextsAgree(messages, items)
    ensures UserTextsAgree(messages + [ChatMessage(Assistant, text)], items + ParsedItems(text))
  {
    var m := [ChatMessage(Assistant, text)];
    assert Filter(messages + m, IsUserTurn) == Filter(messages, IsUserTurn) by {
      FilterAppend(messages, m, IsUserTurn);
      assert m[1..] == [];
    }
    assert Filter(items + ParsedItems(text), IsUserBubble) == Filter(items, IsUserBubble) by {
      ParsedItemsStyled(text);
      FilterAppend(items, ParsedItems(text), IsUserBubble);
    }
  }

  /** A user turn and its light blue bubble keep the turns ordered and the transcript styled. */
  lemma UserTurnKeepsShape(messages: seq<ChatMessage>, items: seq<ChatItem>, text: string)
    requires TurnsOrdered(messages) && TranscriptStyled(items)
    ensures TurnsOrdered(messages + [ChatMessage(User, text)])
    ensures TranscriptStyled(items + [TextItem(text, LightBlue)])
  {
  }

  /** An assistant turn right after a user turn keeps the turns ordered. */
  lemma AssistantTurnKeepsOrder(messages: seq<ChatMessage>, text: string)
    requires TurnsOrdered(messages)
    requires messages != [] && messages[|messages| - 1].role == User
    ensures TurnsOrdered(messages + [ChatMessage(Assistant, text)])
  {
  }

  /** A parsed assistant reply keeps the transcript styled. */
  lemma ParsedReplyKeepsStyle(items: seq<ChatItem>, text: string)
    requires TranscriptStyled(items)
    ensures TranscriptStyled(items + ParsedItems(text))
  {
    ParsedItemsStyled(text);
    var parsed := ParsedItems(text);
    forall i | 0 <= i < |items + parsed|
      ensures StyleFits((items + parsed)[i])
    {
      if i >= |items| {
        assert (items + parsed)[i] == parsed[i - |items|];
      }
    }
  }

  class MainWindow {
    var inputText: string                  // InputTextBox.Text
    var messages: seq<ChatMessage>         // _messages, the history sent to the chat model
    var chatItems: seq<ChatItem>           // _chatItems, the transcript on screen
    var generatedImage: Option<seq<bv8>>   // GeneratedImage.Source

    /**
     * A system turn can only be the first one; every assistant turn directly follows a user turn;
     * the user turns and the user bubbles hold the same texts in the same order; every entry
     * has a background that fits its kind.
     */
    ghost predicate Valid()
      reads this
    {
      TurnsOrdered(messages) && UserTextsAgree(messages, chatItems) && TranscriptStyled(chatItems)
    }

    /** The window opens with an empty transcript; the contents of UserInfo.txt, if it exists, become a system turn. */
    constructor (userInfo: Option<string>)
      ensures Valid()
      ensures inputText == "" && chatItems == [] && generatedImage == None
      ensures messages == if userInfo.Some? then [ChatMessage(System, userInfo.value)] else []
    {
      inputText := "";
      messages := if userInfo.Some? then [ChatMessage(System, userInfo.value)] else [];
      chatItems := [];
      generatedImage := None;
    }

    /** Appends one text entry, light blue for the user and light gray for the assistant. */
    method AddMessage(text: string, isUser: bool)
      modifies this`chatItems
      ensures chatItems == old(chatItems) + [TextItem(text, if isUser then LightBlue else LightGray)]
    {
      chatItems := chatItems + [TextItem(text, if isUser then LightBlue else LightGray)];
    }

    /** Appends the stretch rawText[from..to], trimmed, as an assistant text entry unless it is blank. */
    method AddTextStretch(rawText: string, from: nat, to: nat)
      requires from <= to <= |rawText|
      modifies this`chatItems
      ensures chatItems == old(chatItems) + GapItems(rawText, from, to)
    {
      if to > from {
        var text := rawText[from..to];
        if !IsNullOrWhiteSpace(text) {
          AddMessage(Trim(text), false);
        }
      }
    }

    /** Splits an assistant reply at its code fences and appends the pieces to the transcript. */
    method AddParsedAssistantResponse(rawText: string)
      modifies this`chatItems
      ensures chatItems == old(chatItems) + ParsedItems(rawText)
    {
      var matches := AllFences(rawText, 0);
      if |matches| == 0 {
        AddMessage(rawText, false);
        return;
      }
      var lastIndex: nat := 0;
      for k := 0 to |matches|
        invariant lastIndex <= |rawText|
        invariant lastIndex == if k == 0 then 0 else matches[k - 1].End()
        invariant Sequential(rawText, lastIndex, matches[k..])
        invariant old(chatItems) + ItemsOf(rawText, matches, 0) == chatItems + ItemsOf(rawText, matches[k..], lastIndex)
      {
        var match_ := matches[k];
        ghost var rest := matches[k..];
        assert rest[0] == match_ && rest[1..] == matches[k + 1..];
        ghost var before := chatItems;
        AddTextStretch(rawText, lastIndex, match_.start);
        var language := Trim(Language(rawText, match_));
        var code := Trim(Body(rawText, match_));
        chatItems := chatItems + [CodeItem(code, language, Dark)];
        AppendThree(before, GapItems(rawText, lastIndex, match_.start), [CodeItemOf(rawText, match_)],
                    ItemsOf(rawText, matches[k + 1..], match_.End()));
        lastIndex := match_.End();
      }
      AddTextStretch(rawText, lastIndex, |rawText|);
    }

    /**
     * One press of Send, with the outcomes of the classification call, the chat call and the
     * image call given as inputs. A blank input is refused and changes nothing; otherwise the
     * input box is cleared and the classifier asked. If it fails, nothing else happens. If it
     * answers, the user's bubble and user turn are appended before its answer is read; an answer
     * without content escapes there. An answer whose trimmed text starts with y or Y clears the
     * image and shows the generated one or the error message; any other answer appends the chat
     * reply, parsed, and its assistant turn, or nothing when the chat call fails.
     */
    method SendButtonClick(judge: JudgeReply, chat: ChatReply, image: ImageReply) returns (outcome: SendOutcome)
      requires Valid()
      modifies this
      ensures Valid()
      ensures outcome == Rejected <==> IsNullOrWhiteSpace(old(inputText))
      ensures outcome == Rejected ==>
        inputText == old(inputText) && messages == old(messages) && chatItems == old(chatItems)
        && generatedImage == old(generatedImage)
      ensures outcome != Rejected ==> inputText == ""
      ensures outcome != Rejected && judge.JudgeFailed? ==>
        outcome == Escaped && messages == old(messages) && chatItems == old(chatItems)
        && generatedImage == old(generatedImage)
      ensures outcome != Rejected && judge.JudgeReplied? ==>
        var userItems := old(chatItems) + [TextItem(old(inputText), LightBlue)];
        var userTurns := old(messages) + [ChatMessage(User, old(inputText))];
        if judge.content == [] then
          outcome == Escaped && chatItems == userItems && messages == userTurns
          && generatedImage == old(generatedImage)
        else if IsImageRequest(judge.content[0]) then
          var generated := GenerateImage(old(inputText), image);
          chatItems == userItems && messages == userTurns
          && generatedImage == (if generated.Ok? then Some(generated.value) else None)
          && outcome == (if generated.Ok? then ImageShown else ImageError(ImageErrorPrefix + generated.message))
        else
          generatedImage == old(generatedImage)
          && match ChatText(chat)
             case Some(text) =>
               outcome == ChatShown && chatItems == userItems + ParsedItems(text)
               && messages == userTurns + [ChatMessage(Assistant, text)]
             case None =>
               outcome == ChatSwallowed && chatItems == userItems && messages == userTurns
    {
      var userMessage := inputText;
      if IsNullOrWhiteSpace(userMessage) {
        return Rejected;
      }
      inputText := "";
      if judge.JudgeFailed? {
        return Escaped;
      }
      AppendUserTurn(messages, chatItems, userMessage);
      UserTurnKeepsShape(messages, chatItems, userMessage);
      AddMessage(userMessage, true);
      messages := messages + [ChatMessage(User, userMessage)];
      if |judge.content| == 0 {
        return Escaped;
      }
      var isImageRequest := IsImageRequest(judge.content[0]);
      if isImageRequest {
        generatedImage := None;
        var bitmap := GenerateImage(userMessage, image);
        if bitmap.Ok? {
          generatedImage := Some(bitmap.value);
          outcome := ImageShown;
        } else {
          outcome := ImageError(ImageErrorPrefix + bitmap.message);
        }
      } else {
        match ChatText(chat)
        case Some(assistantText) =>
          AppendAssistantTurn(messages, chatItems, assistantText);
          AssistantTurnKeepsOrder(messages, assistantText);
          ParsedReplyKeepsStyle(chatItems, assistantText);
          AddParsedAssistantResponse(assistantText);
          messages := messages + [ChatMessage(Assistant, assistantText)];
          outcome := ChatShown;
        case None =>
          outcome := ChatSwallowed;
      }
    }
  }
}
