/**
 * What AddParsedAssistantResponse appends for one assistant reply, as a function of the reply:
 * the reply is cut at the fence matches; each match becomes a code item, each non-blank stretch
 * of text between matches becomes a trimmed text item, and a reply without any match becomes one
 * text item holding the reply exactly as received.
 */
module Segmenter {
  import opened Wrappers
  import opened Text
  import opened FencePattern
  import opened ChatModel

  /** Group 1 of a match: the language tag between the opening fence and the newline. */
  function Language(raw: string, f: Fence): string
    requires InBounds(raw, f)
  {
    raw[f.start + 3..f.newline]
  }

  /** Group 2 of a match: the code between the newline and the closing fence. */
  function Body(raw: string, f: Fence): string
    requires InBounds(raw, f)
  {
    raw[f.newline + 1..f.close]
  }

  /** The code item appended for a match: trimmed body, trimmed language, dark background. */
  function CodeItemOf(raw: string, f: Fence): ChatItem
    requires InBounds(raw, f)
  {
    CodeItem(Trim(Body(raw, f)), Trim(Language(raw, f)), Dark)
  }

  /** The text item, if any, for the stretch raw[from..to]: present only when it is not blank. */
  function GapItems(raw: string, from: nat, to: nat): seq<ChatItem>
    requires from <= to <= |raw|
  {
    if from < to && !IsNullOrWhiteSpace(raw[from..to])
    then [TextItem(Trim(raw[from..to]), LightGray)]
    else []
  }

  /**
   * The items for the fenced path, for the matches fs scanned from p: the text before each match,
   * its code item, and after the last match the text of the tail.
   */
  function ItemsOf(raw: string, fs: seq<Fence>, p: nat): (r: seq<ChatItem>)
    requires Sequential(raw, p, fs)
    decreases |fs|
    ensures |fs| <= |r| <= 2 * |fs| + 1
  {
    if fs == [] then GapItems(raw, p, |raw|)
    else GapItems(raw, p, fs[0].start) + [CodeItemOf(raw, fs[0])] + ItemsOf(raw, fs[1..], fs[0].End())
  }

  /**
   * Everything AddParsedAssistantResponse(raw) appends to the transcript: never nothing, and for
   * N matches at most one text item around each match and the tail besides the N code items.
   */
  function ParsedItems(raw: string): (r: seq<ChatItem>)
    ensures 1 <= |r| <= 2 * |AllFences(raw, 0)| + 1
  {
    var fs := AllFences(raw, 0);
    if fs == [] then [TextItem(raw, LightGray)] else ItemsOf(raw, fs, 0)
  }

  // ---------------------------------------------------------------------------------------------
  // Reference views of a reply: its matches, the stretches between them, and what each becomes.

  /** The code item for each match of fs, in order. */
  function CodeItemsOf(raw: string, fs: seq<Fence>, p: nat): (r: seq<ChatItem>)
    requires Sequential(raw, p, fs)
    decreases |fs|
    ensures |r| == |fs|
  {
    if fs == [] then [] else [CodeItemOf(raw, fs[0])] + CodeItemsOf(raw, fs[1..], fs[0].End())
  }

  /** The k-th code item is the one made of the k-th match. */
  lemma {:induction false} CodeItemsOfAt(raw: string, fs: seq<Fence>, p: nat, k: nat)
    requires Sequential(raw, p, fs) && k < |fs|
    decreases |fs|
    ensures InBounds(raw, fs[k])
    ensures CodeItemsOf(raw, fs, p)[k] == CodeItemOf(raw, fs[k])
  {
    if k > 0 {
      CodeItemsOfAt(raw, fs[1..], fs[0].End(), k - 1);
    }
  }

  /** The stretches of raw around the matches fs, from p on: before each match, then after the last. */
  function Gaps(raw: string, fs: seq<Fence>, p: nat): (r: seq<string>)
    requires Sequential(raw, p, fs)
    decreases |fs|
    ensures |r| == |fs| + 1
  {
    if fs == [] then [raw[p..]]
    else [raw[p..fs[0].start]] + Gaps(raw, fs[1..], fs[0].End())
  }

  /** The matched text of each match of fs. */
  function Spans(raw: string, fs: seq<Fence>, p: nat): (r: seq<string>)
    requires Sequential(raw, p, fs)
    decreases |fs|
    ensures |r| == |fs|
  {
    if fs == [] then []
    else [raw[fs[0].start..fs[0].End()]] + Spans(raw, fs[1..], fs[0].End())
  }

  /** gaps[0] + spans[0] + gaps[1] + ... + spans[n - 1] + gaps[n]. */
  function Weave(gaps: seq<string>, spans: seq<string>): string
    requires |gaps| == |spans| + 1
  {
    if spans == [] then gaps[0] else gaps[0] + spans[0] + Weave(gaps[1..], spans[1..])
  }

  /** One trimmed assistant text item per stretch that is not blank. */
  function NonBlankTexts(gaps: seq<string>): seq<ChatItem>
  {
    if gaps == [] then []
    else (if IsNullOrWhiteSpace(gaps[0]) then [] else [TextItem(Trim(gaps[0]), LightGray)])
         + NonBlankTexts(gaps[1..])
  }

  /** The background an assistant reply's items get: dark for code, light gray for text. */
  predicate AssistantStyled(item: ChatItem) {
    item.background == if item.CodeItem? then Dark else LightGray
  }

  // ---------------------------------------------------------------------------------------------
  // Properties of the segmentation.

  /** The matches and the stretches around them tile the reply from p on, in order. */
  lemma {:induction false} GapsTile(raw: string, fs: seq<Fence>, p: nat)
    requires Sequential(raw, p, fs)
    decreases |fs|
    ensures Weave(Gaps(raw, fs, p), Spans(raw, fs, p)) == raw[p..]
  {
    if fs != [] {
      var f := fs[0];
      GapsTile(raw, fs[1..], f.End());
      assert raw[p..] == raw[p..f.start] + raw[f.start..f.End()] + raw[f.End()..];
    }
  }

  /** The code items are exactly one per match, in the order of the matches. */
  lemma {:induction false} CodeItemsFollowFences(raw: string, fs: seq<Fence>, p: nat)
    requires Sequential(raw, p, fs)
    decreases |fs|
    ensures Filter(ItemsOf(raw, fs, p), IsCode) == CodeItemsOf(raw, fs, p)
  {
    if fs == [] {
      FilterNone(GapItems(raw, p, |raw|), IsCode);
    } else {
      var f := fs[0];
      CodeItemsFollowFences(raw, fs[1..], f.End());
      var gap := GapItems(raw, p, f.start);
      var code := [CodeItemOf(raw, f)];
      var rest := ItemsOf(raw, fs[1..], f.End());
      assert ItemsOf(raw, fs, p) == gap + code + rest;
      assert Filter(gap + code, IsCode) == code by {
        FilterNone(gap, IsCode);
        assert code[1..] == [];
        FilterAppend(gap, code, IsCode);
      }
      FilterAppend(gap + code, rest, IsCode);
    }
  }

  /** The text items of one stretch are those NonBlankTexts makes of it. */
  lemma GapTextItems(raw: string, from: nat, to: nat)
    requires from <= to <= |raw|
    ensures Filter(GapItems(raw, from, to), IsText) == NonBlankTexts([raw[from..to]])
  {
  }

  /** The text items are the trimmed non-blank stretches around the matches, in order. */
  lemma {:induction false} TextItemsFollowGaps(raw: string, fs: seq<Fence>, p: nat)
    requires Sequential(raw, p, fs)
    decreases |fs|
    ensures Filter(ItemsOf(raw, fs, p), IsText) == NonBlankTexts(Gaps(raw, fs, p))
  {
    if fs == [] {
      assert raw[p..|raw|] == raw[p..];
      GapTextItems(raw, p, |raw|);
    } else {
      var f := fs[0];
      var gap := GapItems(raw, p, f.start);
      var code := [CodeItemOf(raw, f)];
      var rest := ItemsOf(raw, fs[1..], f.End());
      TextItemsFollowGaps(raw, fs[1..], f.End());
      GapTextItems(raw, p, f.start);
      FilterAppend(gap, code, IsText);
      FilterAppend(gap + code, rest, IsText);
      assert Filter(code, IsText) == [];
      NonBlankTextsAppend([raw[p..f.start]], Gaps(raw, fs[1..], f.End()));
    }
  }

  lemma NonBlankTextsAppend(a: seq<string>, b: seq<string>)
    requires |a| == 1
    ensures NonBlankTexts(a + b) == NonBlankTexts(a) + NonBlankTexts(b)
  {
  }

  /** An assistant text item whose text is not blank and is already trimmed. */
  ghost predicate IsTrimmedText(item: ChatItem) {
    item.TextItem? && item.background == LightGray
    && !IsNullOrWhiteSpace(item.text) && Trim(item.text) == item.text
  }

  /** The text item NonBlankTexts makes of a stretch is not blank and already trimmed. */
  lemma TrimmedStretch(g: string)
    requires !IsNullOrWhiteSpace(g)
    ensures IsTrimmedText(TextItem(Trim(g), LightGray))
  {
    TrimNotBlank(g);
    TrimIdempotent(g);
  }

  /** No text item made from stretches is blank, each is already trimmed, there is at most one per stretch. */
  lemma {:induction false} NonBlankTextsShape(gaps: seq<string>)
    ensures |NonBlankTexts(gaps)| <= |gaps|
    ensures forall i :: 0 <= i < |NonBlankTexts(gaps)| ==> IsTrimmedText(NonBlankTexts(gaps)[i])
  {
    if gaps != [] {
      NonBlankTextsShape(gaps[1..]);
      var head: seq<ChatItem> := if IsNullOrWhiteSpace(gaps[0]) then [] else [TextItem(Trim(gaps[0]), LightGray)];
      if !IsNullOrWhiteSpace(gaps[0]) {
        TrimmedStretch(gaps[0]);
      }
      var tail := NonBlankTexts(gaps[1..]);
      assert NonBlankTexts(gaps) == head + tail;
      forall i | 0 <= i < |head + tail|
        ensures IsTrimmedText((head + tail)[i])
      {
        if i >= |head| {
          assert (head + tail)[i] == tail[i - |head|];
        }
      }
    }
  }

  /** Every item of the fenced path carries the assistant's style for its kind. */
  lemma {:induction false} ItemsOfStyled(raw: string, fs: seq<Fence>, p: nat)
    requires Sequential(raw, p, fs)
    decreases |fs|
    ensures forall i :: 0 <= i < |ItemsOf(raw, fs, p)| ==> AssistantStyled(ItemsOf(raw, fs, p)[i])
  {
    if fs != [] {
      ItemsOfStyled(raw, fs[1..], fs[0].End());
    }
  }

  /** Every appended item carries the assistant's style for its kind; none is a user bubble. */
  lemma ParsedItemsStyled(raw: string)
    ensures forall i :: 0 <= i < |ParsedItems(raw)| ==> AssistantStyled(ParsedItems(raw)[i])
    ensures Filter(ParsedItems(raw), IsUserBubble) == []
  {
    if AllFences(raw, 0) != [] {
      ItemsOfStyled(raw, AllFences(raw, 0), 0);
    }
    FilterNone(ParsedItems(raw), IsUserBubble);
  }

  /**
   * With N matches, exactly N code items are appended, one per match in left-to-right order,
   * each holding the trimmed body and trimmed language of its match.
   */
  lemma ParsedCodeItems(raw: string)
    ensures Filter(ParsedItems(raw), IsCode) == CodeItemsOf(raw, AllFences(raw, 0), 0)
    ensures |Filter(ParsedItems(raw), IsCode)| == |AllFences(raw, 0)|
    ensures forall k :: 0 <= k < |AllFences(raw, 0)| ==>
      InBounds(raw, AllFences(raw, 0)[k]) && Filter(ParsedItems(raw), IsCode)[k] == CodeItemOf(raw, AllFences(raw, 0)[k])
  {
    var fs := AllFences(raw, 0);
    if fs == [] {
      assert Filter(ParsedItems(raw), IsCode) == [];
    } else {
      CodeItemsFollowFences(raw, fs, 0);
    }
    forall k | 0 <= k < |fs|
      ensures InBounds(raw, fs[k]) && CodeItemsOf(raw, fs, 0)[k] == CodeItemOf(raw, fs[k])
    {
      CodeItemsOfAt(raw, fs, 0, k);
    }
  }

  /**
   * The reply is appended as a single text item, exactly as received (not trimmed, even when
   * blank), if and only if the pattern finds no match in it.
   */
  lemma NoFenceKeepsRawText(raw: string)
    ensures AllFences(raw, 0) == [] <==> ParsedItems(raw) == [TextItem(raw, LightGray)]
  {
  }

  /**
   * With N >= 1 matches, the text items are the trimmed non-blank stretches around the matches,
   * which with the matches tile the reply: none is blank, each is trimmed, there are at most
   * N + 1 of them, and nothing else is appended.
   */
  lemma FencedTextItems(raw: string)
    requires AllFences(raw, 0) != []
    ensures Weave(Gaps(raw, AllFences(raw, 0), 0), Spans(raw, AllFences(raw, 0), 0)) == raw
    ensures Filter(ParsedItems(raw), IsText) == NonBlankTexts(Gaps(raw, AllFences(raw, 0), 0))
    ensures |Filter(ParsedItems(raw), IsText)| <= |AllFences(raw, 0)| + 1
    ensures forall i :: 0 <= i < |ParsedItems(raw)| && ParsedItems(raw)[i].TextItem? ==>
      !IsNullOrWhiteSpace(ParsedItems(raw)[i].text) && Trim(ParsedItems(raw)[i].text) == ParsedItems(raw)[i].text
  {
    var fs := AllFences(raw, 0);
    var items := ParsedItems(raw);
    GapsTile(raw, fs, 0);
    assert raw[0..] == raw;
    TextItemsFollowGaps(raw, fs, 0);
    NonBlankTextsShape(Gaps(raw, fs, 0));
    forall i | 0 <= i < |items| && items[i].TextItem?
      ensures !IsNullOrWhiteSpace(items[i].text) && Trim(items[i].text) == items[i].text
    {
      TextItemIsKept(items, i);
    }
  }

  /** An element that Filter keeps appears in its result. */
  lemma {:induction false} TextItemIsKept(items: seq<ChatItem>, i: nat)
    requires i < |items| && items[i].TextItem?
    ensures items[i] in Filter(items, IsText)
  {
    if i > 0 {
      TextItemIsKept(items[1..], i - 1);
    }
  }
}
