/**
 * The values the window keeps: history turns (OpenAI ChatMessage) and transcript entries
 * (ChatMessageModel with Text, Type, Language and Background).
 */
module ChatModel {

  /** The role a history turn is created with (CreateSystemMessage, CreateUserMessage, ...). */
  datatype Role = System | User | Assistant

  datatype ChatMessage = ChatMessage(role: Role, text: string)

  /** The three backgrounds in use: LightBlue (user), LightGray (assistant), RGB(30, 30, 30) (code). */
  datatype Brush = LightBlue | LightGray | Dark

  /** A transcript entry of Type "text" or of Type "code"; only code carries a Language. */
  datatype ChatItem =
    | TextItem(text: string, background: Brush)
    | CodeItem(text: string, language: string, background: Brush)

  predicate IsCode(item: ChatItem) {
    item.CodeItem?
  }

  predicate IsText(item: ChatItem) {
    item.TextItem?
  }

  /** A user bubble: text on the user's background. */
  predicate IsUserBubble(item: ChatItem) {
    item.TextItem? && item.background == LightBlue
  }

  predicate IsUserTurn(m: ChatMessage) {
    m.role == User
  }

  /** The elements of s that satisfy keep, in their order in s. */
  function Filter<T>(s: seq<T>, keep: T -> bool): (r: seq<T>)
    ensures |r| <= |s|
    ensures forall i :: 0 <= i < |r| ==> keep(r[i]) && r[i] in s
  {
    if s == [] then [] else (if keep(s[0]) then [s[0]] else []) + Filter(s[1..], keep)
  }

  lemma {:induction false} FilterAppend<T>(a: seq<T>, b: seq<T>, keep: T -> bool)
    ensures Filter(a + b, keep) == Filter(a, keep) + Filter(b, keep)
  {
    if a != [] {
      assert (a + b)[1..] == a[1..] + b;
      FilterAppend(a[1..], b, keep);
    } else {
      assert a + b == b;
    }
  }

  /** Filter keeps everything exactly when every element qualifies. */
  lemma {:induction false} FilterAll<T>(s: seq<T>, keep: T -> bool)
    ensures Filter(s, keep) == s <==> forall i :: 0 <= i < |s| ==> keep(s[i])
  {
    if s != [] {
      FilterAll(s[1..], keep);
      if !keep(s[0]) {
        assert |Filter(s, keep)| < |s|;
      }
    }
  }

  /** Filter keeps nothing exactly when no element qualifies. */
  lemma {:induction false} FilterNone<T>(s: seq<T>, keep: T -> bool)
    ensures Filter(s, keep) == [] <==> forall i :: 0 <= i < |s| ==> !keep(s[i])
  {
    if s != [] {
      FilterNone(s[1..], keep);
    }
  }

  /**
   * A proof step only, modelling nothing: regrouping a concatenation. Stated apart so that the
   * loop of AddParsedAssistantResponse does not prove it in its own large context.
   */
  lemma AppendThree<T>(before: seq<T>, a: seq<T>, b: seq<T>, rest: seq<T>)
    ensures before + (a + b + rest) == (before + a + b) + rest
  {
  }
}
